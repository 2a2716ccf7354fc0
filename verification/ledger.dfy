/**
 * The controller's settlement ledger: the game configuration and its
 * consistency checks, one agent's game state and its scoring, the game
 * transaction and its well-formedness, and the game itself, which validates
 * and settles transactions and can be rebuilt by replaying its history.
 *
 * Agents are numbered 0 .. N-1 and goods 0 .. G-1; a transaction names its
 * parties and goods by these numbers.
 */
module Ledger {
  import opened Wrappers
  import opened Strings

  // ---------------------------------------------------------------------------
  // Sequences of integers, sets of values, duplicates
  // ---------------------------------------------------------------------------

  /** Sum of a sequence of integers. */
  function Sum(xs: seq<int>): int
    decreases |xs|
  {
    if |xs| == 0 then 0 else Sum(xs[..|xs| - 1]) + xs[|xs| - 1]
  }

  /** Replacing one entry changes the sum by exactly the difference. */
  lemma {:induction false} SumUpdate(xs: seq<int>, i: nat, v: int)
    requires i < |xs|
    ensures Sum(xs[i := v]) == Sum(xs) - xs[i] + v
    decreases |xs|
  {
    var n := |xs|;
    if i == n - 1 {
      assert xs[i := v][..n - 1] == xs[..n - 1];
    } else {
      assert xs[i := v][..n - 1] == xs[..n - 1][i := v];
      SumUpdate(xs[..n - 1], i, v);
    }
  }

  /** A sequence of n copies of v sums to n * v. */
  lemma {:induction false} SumConstant(n: nat, v: int)
    ensures Sum(seq(n, _ => v)) == n * v
  {
    if n > 0 {
      assert seq(n, _ => v)[..n - 1] == seq(n - 1, _ => v);
      SumConstant(n - 1, v);
    }
  }

  predicate Distinct<T(==)>(s: seq<T>) {
    forall i, j :: 0 <= i < j < |s| ==> s[i] != s[j]
  }

  /** Python's `set(s)`. */
  function ToSet<T>(s: seq<T>): set<T> {
    set x | x in s
  }

  /** A sequence has as many distinct values as entries exactly when it has no duplicates. */
  lemma {:induction false} DistinctIffFullSet<T>(s: seq<T>)
    ensures |ToSet(s)| <= |s|
    ensures |ToSet(s)| == |s| <==> Distinct(s)
    decreases |s|
  {
    if |s| > 0 {
      var t := s[1..];
      DistinctIffFullSet(t);
      assert ToSet(s) == {s[0]} + ToSet(t);
      if s[0] in t {
        assert ToSet(s) == ToSet(t);
        var j :| 0 <= j < |t| && t[j] == s[0];
        assert s[j + 1] == s[0];
      } else {
        assert |ToSet(s)| == |ToSet(t)| + 1;
        if Distinct(t) {
          forall i, j | 0 <= i < j < |s|
            ensures s[i] != s[j]
          {
            if i > 0 {
              assert s[i] == t[i - 1] && s[j] == t[j - 1];
            } else {
              assert s[j] == t[j - 1];
            }
          }
        } else {
          var i, j :| 0 <= i < j < |t| && t[i] == t[j];
          assert s[i + 1] == s[j + 1];
        }
      }
    } else {
      assert ToSet(s) == {};
    }
  }

  // ---------------------------------------------------------------------------
  // GameConfiguration
  // ---------------------------------------------------------------------------

  /** Why a configuration was refused (each is an `AssertionError` in the source). */
  datatype ConfigError =
    | NegativeMoney
    | NegativeEndowment
    | NegativeUtility
    | NegativeFee
    | TooFewAgents
    | DimensionMismatch
    | NoGoods
    | DuplicateLabels
    | UtilityValuesMismatch

  datatype GameConfiguration = GameConfiguration(
    initialMoneyAmounts: seq<int>,
    endowments: seq<seq<int>>,
    utilities: seq<seq<int>>,
    fee: int,
    agentLabels: seq<string>)
  {
    /** Number of agents: the number of endowment rows. */
    function NbAgents(): nat {
      |endowments|
    }

    /** Number of goods: the length of the first endowment row. */
    function NbGoods(): nat {
      if |endowments| == 0 then 0 else |endowments[0]|
    }

    /**
     * The configuration invariant: non-negative money, endowments, utilities
     * and fee; at least two agents; every table has one row per agent and one
     * column per good; at least one good; unique labels; and each utility row
     * lists G distinct values, the same values for every agent.
     */
    predicate Consistent() {
      && (forall i :: 0 <= i < |initialMoneyAmounts| ==> initialMoneyAmounts[i] >= 0)
      && (forall i, g :: 0 <= i < |endowments| && 0 <= g < |endowments[i]| ==> endowments[i][g] >= 0)
      && (forall i, g :: 0 <= i < |utilities| && 0 <= g < |utilities[i]| ==> utilities[i][g] >= 0)
      && fee >= 0
      && NbAgents() > 1
      && |initialMoneyAmounts| == NbAgents()
      && |utilities| == NbAgents()
      && |agentLabels| == NbAgents()
      && NbGoods() > 0
      && (forall i :: 0 <= i < NbAgents() ==> |endowments[i]| == NbGoods() && |utilities[i]| == NbGoods())
      && Distinct(agentLabels)
      && (forall i :: 0 <= i < NbAgents() ==> Distinct(utilities[i]) && ToSet(utilities[i]) == ToSet(utilities[0]))
    }
  }

  /** The labels used when none are given: "agent_00", "agent_01", ... */
  function GenerateIds(nbAgents: nat): (labels: seq<string>)
    ensures |labels| == nbAgents
  {
    seq(nbAgents, i requires 0 <= i < nbAgents => "agent_" + FormatPadded(i, 2))
  }

  /** Generated labels never collide, however many agents there are. */
  lemma GeneratedIdsDistinct(nbAgents: nat)
    ensures Distinct(GenerateIds(nbAgents))
  {
    var labels := GenerateIds(nbAgents);
    forall i, j | 0 <= i < j < nbAgents
      ensures labels[i] != labels[j]
    {
      assert labels[i][6..] == FormatPadded(i, 2);
      assert labels[j][6..] == FormatPadded(j, 2);
    }
  }

  function LabelsOrDefault(labels: Option<seq<string>>, nbAgents: nat): seq<string> {
    if labels.Some? then labels.value else GenerateIds(nbAgents)
  }

  /** Every utility row that has G entries and the same value set as a G-value first row is duplicate-free. */
  lemma UtilityRowsDistinct(utilities: seq<seq<int>>, nbGoods: nat)
    requires |utilities| > 0
    requires |ToSet(utilities[0])| == nbGoods
    requires forall i :: 0 <= i < |utilities| ==> |utilities[i]| == nbGoods
    requires forall i :: 0 <= i < |utilities| ==> ToSet(utilities[i]) == ToSet(utilities[0])
    ensures forall i :: 0 <= i < |utilities| ==> Distinct(utilities[i])
  {
    forall i | 0 <= i < |utilities|
      ensures Distinct(utilities[i])
    {
      DistinctIffFullSet(utilities[i]);
    }
  }

  /**
   * Builds a configuration, running its consistency checks in the source's
   * order; labels default to the generated ones.
   */
  function NewConfiguration(
    initialMoneyAmounts: seq<int>,
    endowments: seq<seq<int>>,
    utilities: seq<seq<int>>,
    fee: int,
    agentLabels: Option<seq<string>>): (r: Result<GameConfiguration, ConfigError>)
    ensures r.Success? <==>
      GameConfiguration(initialMoneyAmounts, endowments, utilities, fee,
                        LabelsOrDefault(agentLabels, |endowments|)).Consistent()
    ensures r.Success? ==> r.value.endowments == endowments && r.value.utilities == utilities
    ensures r.Success? ==> r.value.initialMoneyAmounts == initialMoneyAmounts && r.value.fee == fee
    ensures r.Success? ==> r.value.agentLabels == LabelsOrDefault(agentLabels, |endowments|)
  {
    var labels := LabelsOrDefault(agentLabels, |endowments|);
    var c := GameConfiguration(initialMoneyAmounts, endowments, utilities, fee, labels);
    var n := |endowments|;
    if !(forall i :: 0 <= i < |initialMoneyAmounts| ==> initialMoneyAmounts[i] >= 0) then Failure(NegativeMoney)
    else if !(forall i, g :: 0 <= i < |endowments| && 0 <= g < |endowments[i]| ==> endowments[i][g] >= 0) then Failure(NegativeEndowment)
    else if !(forall i, g :: 0 <= i < |utilities| && 0 <= g < |utilities[i]| ==> utilities[i][g] >= 0) then Failure(NegativeUtility)
    else if fee < 0 then Failure(NegativeFee)
    else if n <= 1 then Failure(TooFewAgents)
    else if |initialMoneyAmounts| != n || |utilities| != n || |labels| != n then Failure(DimensionMismatch)
    else if |endowments[0]| == 0 then Failure(NoGoods)
    else if !(forall i :: 0 <= i < n ==> |endowments[i]| == |endowments[0]|) then Failure(DimensionMismatch)
    else if !(forall i :: 0 <= i < n ==> |utilities[i]| == |endowments[0]|) then Failure(DimensionMismatch)
    else if |ToSet(labels)| != n then
      DistinctIffFullSet(labels);
      Failure(DuplicateLabels)
    else if |ToSet(utilities[0])| != |endowments[0]| then
      DistinctIffFullSet(utilities[0]);
      Failure(UtilityValuesMismatch)
    else if !(forall i :: 0 <= i < n ==> ToSet(utilities[i]) == ToSet(utilities[0])) then Failure(UtilityValuesMismatch)
    else
      DistinctIffFullSet(labels);
      UtilityRowsDistinct(utilities, |endowments[0]|);
      Success(c)
  }

  /** Without explicit labels, a configuration is never refused for duplicate labels. */
  lemma DefaultLabelsNeverDuplicate(
    initialMoneyAmounts: seq<int>, endowments: seq<seq<int>>, utilities: seq<seq<int>>, fee: int)
    ensures NewConfiguration(initialMoneyAmounts, endowments, utilities, fee, None) != Failure(DuplicateLabels)
  {
    GeneratedIdsDistinct(|endowments|);
    DistinctIffFullSet(GenerateIds(|endowments|));
  }

  /**
   * The label-to-id lookup built by `dict(map(reversed, enumerate(labels)))`:
   * a later occurrence of a label overwrites an earlier one; an unknown label
   * has no id (a `KeyError` in the source).
   */
  function LastIndexOf(labels: seq<string>, name: string): (r: Option<nat>)
    ensures r.None? <==> name !in labels
    ensures r.Some? ==> (r.value < |labels| && labels[r.value] == name
      && forall j :: r.value < j < |labels| ==> labels[j] != name)
    decreases |labels|
  {
    if |labels| == 0 then None
    else if labels[|labels| - 1] == name then Some(|labels| - 1)
    else
      var r := LastIndexOf(labels[..|labels| - 1], name);
      assert labels == labels[..|labels| - 1] + [labels[|labels| - 1]];
      r
  }

  function AgentIdFromLabel(c: GameConfiguration, name: string): Option<nat> {
    LastIndexOf(c.agentLabels, name)
  }

  /** In a consistent configuration, the label of agent i leads back to i. */
  lemma AgentIdFromLabelInverts(c: GameConfiguration, i: nat)
    requires c.Consistent()
    requires i < c.NbAgents()
    ensures AgentIdFromLabel(c, c.agentLabels[i]) == Some(i)
  {
    var r := LastIndexOf(c.agentLabels, c.agentLabels[i]);
    assert c.agentLabels[r.value] == c.agentLabels[i];
  }

  // ---------------------------------------------------------------------------
  // GameState: one agent's row of the ledger
  // ---------------------------------------------------------------------------

  datatype GameState = GameState(balance: int, currentHoldings: seq<int>, utilities: seq<int>) {
    /** One holding per good. */
    predicate Wf() {
      |currentHoldings| == |utilities|
    }

    predicate HoldingsNonNegative() {
      forall g :: 0 <= g < |currentHoldings| ==> currentHoldings[g] >= 0
    }
  }

  /** Score of holding `quantity` of good `goodId`: its utility if at least one is held. */
  function ScoreGoodQuantity(utilities: seq<int>, goodId: int, quantity: int): int
    requires 0 <= goodId < |utilities|
    requires quantity >= 0
  {
    utilities[goodId] * (if quantity >= 1 then 1 else 0)
  }

  /** Score of a vector of quantities, position g being good g. */
  function ScoreGoodQuantities(utilities: seq<int>, quantities: seq<int>): int
    requires |quantities| <= |utilities|
    requires forall g :: 0 <= g < |quantities| ==> quantities[g] >= 0
    decreases |quantities|
  {
    if |quantities| == 0 then 0
    else
      ScoreGoodQuantities(utilities, quantities[..|quantities| - 1])
      + ScoreGoodQuantity(utilities, |quantities| - 1, quantities[|quantities| - 1])
  }

  /** An agent's score: the utilities of the goods it holds at least one of, plus its money. */
  function Score(s: GameState): int
    requires s.Wf() && s.HoldingsNonNegative()
  {
    ScoreGoodQuantities(s.utilities, s.currentHoldings) + s.balance
  }

  /** Only whether a good is held matters to the score, not how many are held. */
  lemma {:induction false} ScoreDependsOnlyOnHeldGoods(utilities: seq<int>, q1: seq<int>, q2: seq<int>)
    requires |q1| == |q2| <= |utilities|
    requires forall g :: 0 <= g < |q1| ==> q1[g] >= 0 && q2[g] >= 0
    requires forall g :: 0 <= g < |q1| ==> (q1[g] >= 1 <==> q2[g] >= 1)
    ensures ScoreGoodQuantities(utilities, q1) == ScoreGoodQuantities(utilities, q2)
    decreases |q1|
  {
    if |q1| > 0 {
      ScoreDependsOnlyOnHeldGoods(utilities, q1[..|q1| - 1], q2[..|q2| - 1]);
    }
  }

  /** With non-negative utilities, goods add between nothing and the sum of the utilities. */
  lemma {:induction false} ScoreBounds(utilities: seq<int>, quantities: seq<int>)
    requires |quantities| <= |utilities|
    requires forall g :: 0 <= g < |quantities| ==> quantities[g] >= 0
    requires forall g :: 0 <= g < |utilities| ==> utilities[g] >= 0
    ensures 0 <= ScoreGoodQuantities(utilities, quantities) <= Sum(utilities[..|quantities|])
    decreases |quantities|
  {
    var n := |quantities|;
    if n > 0 {
      ScoreBounds(utilities, quantities[..n - 1]);
      assert utilities[..n][..n - 1] == utilities[..n - 1];
    }
  }

  /** Quantity a map assigns to a good, zero when the good is absent. */
  function Qty(quantities: map<int, int>, g: int): int {
    if g in quantities then quantities[g] else 0
  }

  /** Holdings after adding a map of per-good quantity changes. */
  function ApplyDelta(holdings: seq<int>, delta: map<int, int>): (r: seq<int>)
    ensures |r| == |holdings|
    ensures forall g :: 0 <= g < |holdings| ==> r[g] == holdings[g] + Qty(delta, g)
  {
    seq(|holdings|, g requires 0 <= g < |holdings| => holdings[g] + Qty(delta, g))
  }

  function Negate(quantities: map<int, int>): (r: map<int, int>)
    ensures r.Keys == quantities.Keys
    ensures forall g :: Qty(r, g) == -Qty(quantities, g)
  {
    map g | g in quantities :: -quantities[g]
  }

  /** Applying a change and then its opposite gives the holdings back. */
  lemma ApplyDeltaUndo(holdings: seq<int>, delta: map<int, int>)
    ensures ApplyDelta(ApplyDelta(holdings, delta), Negate(delta)) == holdings
  {
    var r := ApplyDelta(ApplyDelta(holdings, delta), Negate(delta));
    forall g | 0 <= g < |holdings|
      ensures r[g] == holdings[g]
    {
      assert Qty(Negate(delta), g) == -Qty(delta, g);
    }
  }

  /** Why a hypothetical update was refused. */
  datatype UpdateError = NotEnoughMoney | NotEnoughGoods

  /** The check of `_check_update`: enough money to pay and enough instances of every good given away. */
  predicate UpdateAllowed(s: GameState, deltaMoney: int, deltaQuantities: map<int, int>)
    requires forall g :: g in deltaQuantities ==> 0 <= g < |s.currentHoldings|
  {
    && (deltaMoney >= 0 || s.balance >= -deltaMoney)
    && forall g :: g in deltaQuantities ==> deltaQuantities[g] >= 0 || s.currentHoldings[g] >= -deltaQuantities[g]
  }

  /**
   * The score the agent would have if the change were applied, without
   * applying it; refused when the agent lacks the money or the goods.
   */
  function GetScoreAfterTransaction(s: GameState, deltaMoney: int, deltaQuantities: map<int, int>): (r: Result<int, UpdateError>)
    requires s.Wf() && s.HoldingsNonNegative()
    requires forall g :: g in deltaQuantities ==> 0 <= g < |s.currentHoldings|
    ensures r.Success? <==> UpdateAllowed(s, deltaMoney, deltaQuantities)
    ensures r.Failure? && deltaMoney < 0 && s.balance < -deltaMoney ==> r.error == NotEnoughMoney
    ensures r.Success? ==> GameState(s.balance + deltaMoney, ApplyDelta(s.currentHoldings, deltaQuantities), s.utilities).HoldingsNonNegative()
    ensures r.Success? ==> r.value == Score(GameState(s.balance + deltaMoney, ApplyDelta(s.currentHoldings, deltaQuantities), s.utilities))
  {
    if !(deltaMoney >= 0 || s.balance >= -deltaMoney) then Failure(NotEnoughMoney)
    else if !(forall g :: g in deltaQuantities ==> deltaQuantities[g] >= 0 || s.currentHoldings[g] >= -deltaQuantities[g]) then
      Failure(NotEnoughGoods)
    else
      var newHoldings := ApplyDelta(s.currentHoldings, deltaQuantities);
      assert forall g :: 0 <= g < |newHoldings| ==> newHoldings[g] >= 0 by {
        forall g | 0 <= g < |newHoldings|
          ensures newHoldings[g] >= 0
        {
          if g in deltaQuantities {
            assert newHoldings[g] == s.currentHoldings[g] + deltaQuantities[g];
          }
        }
      }
      Success(ScoreGoodQuantities(s.utilities, newHoldings) + (s.balance + deltaMoney))
  }

  /**
   * The transaction record an agent receives (the protocol transaction):
   * `isBuyer` tells whether the receiving agent is the buyer.
   */
  datatype Transaction = Transaction(
    transactionId: string,
    isBuyer: bool,
    counterparty: string,
    amount: int,
    quantitiesByGoodId: map<int, int>)

  /**
   * Per-position changes for a list of n holdings indexed the way Python
   * indexes lists: position g receives the entry for g and, counting from
   * the end, the entry for g - n. Entries outside -n..n-1 reach no position.
   */
  function PythonIndexed(delta: map<int, int>, n: nat): (r: map<int, int>)
    ensures forall g :: 0 <= g < n ==> Qty(r, g) == PositionQty(delta, n, g)
  {
    map g | 0 <= g < n :: PositionQty(delta, n, g)
  }

  /** What position g of n receives: the entry for g plus the entry for g - n. */
  function PositionQty(delta: map<int, int>, n: nat, g: int): int {
    Qty(delta, g) + Qty(delta, g - n)
  }

  /** With every good id in 0..n-1, Python indexing is plain indexing. */
  lemma PythonIndexedInRange(holdings: seq<int>, delta: map<int, int>)
    requires forall g :: g in delta ==> 0 <= g < |holdings|
    ensures ApplyDelta(holdings, PythonIndexed(delta, |holdings|)) == ApplyDelta(holdings, delta)
  {
    var n := |holdings|;
    forall g | 0 <= g < n
      ensures Qty(PythonIndexed(delta, n), g) == Qty(delta, g)
    {
      assert g - n !in delta;
      assert PositionQty(delta, n, g) == Qty(delta, g);
    }
  }

  /**
   * Applies a transaction to an agent's own row: the buyer pays the amount
   * and receives the goods, the seller is paid and gives the goods away. A
   * negative good id counts from the end of the holdings, as Python list
   * indexing does.
   */
  function Update(s: GameState, tx: Transaction): (r: GameState)
    ensures r.utilities == s.utilities
    ensures r.balance == s.balance + MoneyDelta(tx)
    ensures r.currentHoldings == ApplyDelta(s.currentHoldings, PythonIndexed(GoodsDelta(tx), |s.currentHoldings|))
  {
    var switch := if tx.isBuyer then -1 else 1;
    var n := |s.currentHoldings|;
    assert forall g :: Qty(GoodsDelta(tx), g) == (-switch) * Qty(tx.quantitiesByGoodId, g);
    GameState(
      s.balance + switch * tx.amount,
      seq(n, g requires 0 <= g < n =>
        s.currentHoldings[g] + (-switch) * (Qty(tx.quantitiesByGoodId, g) + Qty(tx.quantitiesByGoodId, g - n))),
      s.utilities)
  }

  /** A buyer receiving good -1 of two goods receives the last good. */
  lemma UpdateNegativeGoodIdExample()
    ensures Update(GameState(20, [0, 1], [10, 20]), Transaction("t", true, "c", 5, map[-1 := 1]))
         == GameState(15, [0, 2], [10, 20])
  {
    var r := Update(GameState(20, [0, 1], [10, 20]), Transaction("t", true, "c", 5, map[-1 := 1]));
    assert Qty(map[-1 := 1], 1 - 2) == 1;
    assert Qty(map[-1 := 1], 0 - 2) == 0;
    assert r.currentHoldings == [0, 2];
  }

  /** The money and goods change that a transaction means for the agent receiving it. */
  function MoneyDelta(tx: Transaction): int {
    if tx.isBuyer then -tx.amount else tx.amount
  }

  function GoodsDelta(tx: Transaction): map<int, int> {
    if tx.isBuyer then tx.quantitiesByGoodId else Negate(tx.quantitiesByGoodId)
  }

  /** When every good id names a good, `Update` adds the signed quantities position by position. */
  lemma UpdateInRange(s: GameState, tx: Transaction)
    requires forall g :: g in tx.quantitiesByGoodId ==> 0 <= g < |s.currentHoldings|
    ensures Update(s, tx) == GameState(s.balance + MoneyDelta(tx), ApplyDelta(s.currentHoldings, GoodsDelta(tx)), s.utilities)
  {
    PythonIndexedInRange(s.currentHoldings, GoodsDelta(tx));
  }

  /**
   * The hypothetical score of a transaction is the score the agent actually
   * gets once the same transaction is applied with `Update`.
   */
  lemma ScoreAfterTransactionPredictsUpdate(s: GameState, tx: Transaction)
    requires s.Wf() && s.HoldingsNonNegative()
    requires forall g :: g in tx.quantitiesByGoodId ==> 0 <= g < |s.currentHoldings|
    requires UpdateAllowed(s, MoneyDelta(tx), GoodsDelta(tx))
    ensures Update(s, tx).HoldingsNonNegative()
    ensures GetScoreAfterTransaction(s, MoneyDelta(tx), GoodsDelta(tx)) == Success(Score(Update(s, tx)))
  {
    UpdateInRange(s, tx);
    var r := GetScoreAfterTransaction(s, MoneyDelta(tx), GoodsDelta(tx));
  }

  // ---------------------------------------------------------------------------
  // GameTransaction
  // ---------------------------------------------------------------------------

  /** A settled or to-be-settled transaction; the timestamp is kept opaque. */
  datatype GameTransaction = GameTransaction(
    buyerId: int,
    sellerId: int,
    amount: int,
    quantitiesByGoodId: map<int, int>,
    timestamp: string)
  {
    /** Distinct parties, a positive amount, non-negative good ids and quantities. */
    predicate WellFormed() {
      && buyerId != sellerId
      && amount > 0
      && (forall g :: g in quantitiesByGoodId ==> g >= 0)
      && (forall g :: g in quantitiesByGoodId ==> quantitiesByGoodId[g] >= 0)
    }

    /** Parties and goods name existing agents and goods. */
    predicate IdsInRange(nbAgents: nat, nbGoods: nat) {
      && 0 <= buyerId < nbAgents
      && 0 <= sellerId < nbAgents
      && forall g :: g in quantitiesByGoodId ==> 0 <= g < nbGoods
    }
  }

  datatype TxError = SameParties | NonPositiveAmount | NegativeGoodId | NegativeQuantity

  /** Builds a transaction, running its consistency checks in the source's order. */
  function NewGameTransaction(buyerId: int, sellerId: int, amount: int, quantities: map<int, int>, timestamp: string)
    : (r: Result<GameTransaction, TxError>)
    ensures r.Success? <==> GameTransaction(buyerId, sellerId, amount, quantities, timestamp).WellFormed()
    ensures r.Success? ==> r.value == GameTransaction(buyerId, sellerId, amount, quantities, timestamp)
    ensures buyerId == sellerId ==> r == Failure(SameParties)
  {
    if buyerId == sellerId then Failure(SameParties)
    else if amount <= 0 then Failure(NonPositiveAmount)
    else if !(forall g :: g in quantities ==> g >= 0) then Failure(NegativeGoodId)
    else if !(forall g :: g in quantities ==> quantities[g] >= 0) then Failure(NegativeQuantity)
    else Success(GameTransaction(buyerId, sellerId, amount, quantities, timestamp))
  }

  // ---------------------------------------------------------------------------
  // Game: validation, settlement, scores, replay
  // ---------------------------------------------------------------------------

  datatype GameError = TxRefused(txError: TxError) | InvalidTransaction

  datatype Game = Game(configuration: GameConfiguration, transactions: seq<GameTransaction>, gameStates: seq<GameState>) {
    /** One row per agent, one holding per good, each row keeping its configured utilities. */
    predicate Wf() {
      && configuration.Consistent()
      && |gameStates| == configuration.NbAgents()
      && forall i :: 0 <= i < |gameStates| ==>
           |gameStates[i].currentHoldings| == configuration.NbGoods()
           && gameStates[i].utilities == configuration.utilities[i]
    }

    /** No agent has a negative balance or holding. */
    predicate NonNegative() {
      forall i :: 0 <= i < |gameStates| ==> gameStates[i].balance >= 0 && gameStates[i].HoldingsNonNegative()
    }

    function NbAgents(): nat {
      configuration.NbAgents()
    }

    function NbGoods(): nat {
      configuration.NbGoods()
    }
  }

  /** A fresh game: every agent starts with its configured money, endowment and utilities, and no history. */
  function NewGame(c: GameConfiguration): (g: Game)
    requires c.Consistent()
    ensures g.Wf() && g.NonNegative()
    ensures g.configuration == c && g.transactions == []
    ensures forall i :: 0 <= i < c.NbAgents() ==>
      g.gameStates[i] == GameState(c.initialMoneyAmounts[i], c.endowments[i], c.utilities[i])
  {
    Game(c, [], seq(c.NbAgents(), i requires 0 <= i < c.NbAgents() =>
      GameState(c.initialMoneyAmounts[i], c.endowments[i], c.utilities[i])))
  }

  function Balances(states: seq<GameState>): (r: seq<int>)
    ensures |r| == |states|
    ensures forall i :: 0 <= i < |states| ==> r[i] == states[i].balance
  {
    seq(|states|, i requires 0 <= i < |states| => states[i].balance)
  }

  function GoodColumn(states: seq<GameState>, g: nat): (r: seq<int>)
    requires forall i :: 0 <= i < |states| ==> g < |states[i].currentHoldings|
    ensures |r| == |states|
    ensures forall i :: 0 <= i < |states| ==> r[i] == states[i].currentHoldings[g]
  {
    seq(|states|, i requires 0 <= i < |states| => states[i].currentHoldings[g])
  }

  /** Money held by all agents together. */
  function TotalMoney(states: seq<GameState>): int {
    Sum(Balances(states))
  }

  /** Instances of good g held by all agents together. */
  function TotalGood(states: seq<GameState>, g: nat): int
    requires forall i :: 0 <= i < |states| ==> g < |states[i].currentHoldings|
  {
    Sum(GoodColumn(states, g))
  }

  /**
   * The validity rule: the buyer can pay the amount plus the fee, and the
   * seller holds at least the traded quantity of every good in the transaction.
   */
  predicate TransactionValid(game: Game, tx: GameTransaction)
    requires game.Wf()
    requires tx.IdsInRange(game.NbAgents(), game.NbGoods())
  {
    && game.gameStates[tx.buyerId].balance >= tx.amount + game.configuration.fee
    && forall g :: g in tx.quantitiesByGoodId ==>
         game.gameStates[tx.sellerId].currentHoldings[g] >= tx.quantitiesByGoodId[g]
  }

  /**
   * Checks a transaction against the ledger, the money test first and then
   * the goods one by one; reads only. Goods are visited by increasing id,
   * which gives the same verdict as any other order.
   */
  method IsTransactionValid(game: Game, tx: GameTransaction) returns (valid: bool)
    requires game.Wf()
    requires tx.IdsInRange(game.NbAgents(), game.NbGoods())
    ensures valid == TransactionValid(game, tx)
  {
    if game.gameStates[tx.buyerId].balance < tx.amount + game.configuration.fee {
      return false;
    }
    var sellerHoldings := game.gameStates[tx.sellerId].currentHoldings;
    var quantities := tx.quantitiesByGoodId;
    var g := 0;
    while g < |sellerHoldings|
      invariant 0 <= g <= |sellerHoldings|
      invariant forall k :: k in quantities && k < g ==> sellerHoldings[k] >= quantities[k]
    {
      if g in quantities && sellerHoldings[g] < quantities[g] {
        return false;
      }
      g := g + 1;
    }
    return true;
  }

  /**
   * Settles a transaction: refused unless valid; otherwise appends it to the
   * history once, moves the amount from buyer to seller (the fee is not
   * deducted) and moves the goods from seller to buyer.
   */
  function SettleTransaction(game: Game, tx: GameTransaction): (r: Result<Game, GameError>)
    requires game.Wf()
    requires tx.WellFormed()
    requires tx.IdsInRange(game.NbAgents(), game.NbGoods())
    ensures r.Success? <==> TransactionValid(game, tx)
    ensures r.Failure? ==> r.error == InvalidTransaction
    ensures r.Success? ==> r.value.Wf()
    ensures r.Success? ==> r.value.configuration == game.configuration
    ensures r.Success? ==> r.value.transactions == game.transactions + [tx]
    ensures r.Success? ==> forall i :: 0 <= i < game.NbAgents() && i != tx.buyerId && i != tx.sellerId ==>
      r.value.gameStates[i] == game.gameStates[i]
  {
    if !TransactionValid(game, tx) then Failure(InvalidTransaction)
    else
      var buyer := game.gameStates[tx.buyerId];
      var seller := game.gameStates[tx.sellerId];
      var newBuyer := GameState(buyer.balance - tx.amount, ApplyDelta(buyer.currentHoldings, tx.quantitiesByGoodId), buyer.utilities);
      var newSeller := GameState(seller.balance + tx.amount, ApplyDelta(seller.currentHoldings, Negate(tx.quantitiesByGoodId)), seller.utilities);
      Success(game.(
        transactions := game.transactions + [tx],
        gameStates := game.gameStates[tx.buyerId := newBuyer][tx.sellerId := newSeller]))
  }

  /** Replacing one agent's row changes the money total by the difference in that row. */
  lemma TotalMoneyUpdate(states: seq<GameState>, i: nat, st: GameState)
    requires i < |states|
    ensures TotalMoney(states[i := st]) == TotalMoney(states) - states[i].balance + st.balance
  {
    assert Balances(states[i := st]) == Balances(states)[i := st.balance];
    SumUpdate(Balances(states), i, st.balance);
  }

  /** Settlement neither creates nor destroys money. */
  lemma SettleConservesMoney(game: Game, tx: GameTransaction)
    requires game.Wf() && tx.WellFormed() && tx.IdsInRange(game.NbAgents(), game.NbGoods())
    requires SettleTransaction(game, tx).Success?
    ensures TotalMoney(SettleTransaction(game, tx).value.gameStates) == TotalMoney(game.gameStates)
  {
    var s := game.gameStates;
    var s' := SettleTransaction(game, tx).value.gameStates;
    var b, c := tx.buyerId, tx.sellerId;
    var step := s[b := s'[b]];
    TotalMoneyUpdate(s, b, s'[b]);
    assert s' == step[c := s'[c]];
    TotalMoneyUpdate(step, c, s'[c]);
  }

  /** Replacing one agent's row changes a good's total by the difference in that row. */
  lemma TotalGoodUpdate(states: seq<GameState>, i: nat, st: GameState, g: nat)
    requires i < |states|
    requires forall k :: 0 <= k < |states| ==> g < |states[k].currentHoldings|
    requires g < |st.currentHoldings|
    ensures TotalGood(states[i := st], g) == TotalGood(states, g) - states[i].currentHoldings[g] + st.currentHoldings[g]
  {
    assert GoodColumn(states[i := st], g) == GoodColumn(states, g)[i := st.currentHoldings[g]];
    SumUpdate(GoodColumn(states, g), i, st.currentHoldings[g]);
  }

  /** Settlement neither creates nor destroys any good. */
  lemma SettleConservesGoods(game: Game, tx: GameTransaction, g: nat)
    requires game.Wf() && tx.WellFormed() && tx.IdsInRange(game.NbAgents(), game.NbGoods())
    requires SettleTransaction(game, tx).Success?
    requires g < game.NbGoods()
    ensures TotalGood(SettleTransaction(game, tx).value.gameStates, g) == TotalGood(game.gameStates, g)
  {
    var s := game.gameStates;
    var s' := SettleTransaction(game, tx).value.gameStates;
    var b, c := tx.buyerId, tx.sellerId;
    var q := Qty(tx.quantitiesByGoodId, g);
    var step := s[b := s'[b]];
    assert s'[b].currentHoldings[g] == s[b].currentHoldings[g] + q;
    assert s'[c].currentHoldings[g] == s[c].currentHoldings[g] - q;
    TotalGoodUpdate(s, b, s'[b], g);
    assert s' == step[c := s'[c]];
    TotalGoodUpdate(step, c, s'[c], g);
  }

  /** Because the buyer could also pay a non-negative fee, nobody ends up with negative money or goods. */
  lemma SettleKeepsNonNegative(game: Game, tx: GameTransaction)
    requires game.Wf() && tx.WellFormed() && tx.IdsInRange(game.NbAgents(), game.NbGoods())
    requires game.NonNegative()
    requires SettleTransaction(game, tx).Success?
    ensures SettleTransaction(game, tx).value.NonNegative()
  {
    var s' := SettleTransaction(game, tx).value.gameStates;
    forall i | 0 <= i < |s'|
      ensures s'[i].balance >= 0 && s'[i].HoldingsNonNegative()
    {
      if i == tx.sellerId {
        forall g | 0 <= g < |s'[i].currentHoldings|
          ensures s'[i].currentHoldings[g] >= 0
        {
          if g in tx.quantitiesByGoodId {
            assert game.gameStates[i].currentHoldings[g] >= tx.quantitiesByGoodId[g];
          }
        }
      }
    }
  }

  /** The agent-side view of a game transaction, from the buyer's or the seller's side. */
  function AgentView(tx: GameTransaction, asBuyer: bool): Transaction {
    Transaction("", asBuyer, "", tx.amount, tx.quantitiesByGoodId)
  }

  /**
   * The ledger's rows after settlement are exactly what the buyer and the
   * seller compute for themselves with `Update` from the same transaction.
   */
  lemma SettleAgreesWithAgentUpdate(game: Game, tx: GameTransaction)
    requires game.Wf() && tx.WellFormed() && tx.IdsInRange(game.NbAgents(), game.NbGoods())
    requires SettleTransaction(game, tx).Success?
    ensures SettleTransaction(game, tx).value.gameStates[tx.buyerId] == Update(game.gameStates[tx.buyerId], AgentView(tx, true))
    ensures SettleTransaction(game, tx).value.gameStates[tx.sellerId] == Update(game.gameStates[tx.sellerId], AgentView(tx, false))
  {
    var s' := SettleTransaction(game, tx).value.gameStates;
    UpdateInRange(game.gameStates[tx.buyerId], AgentView(tx, true));
    UpdateInRange(game.gameStates[tx.sellerId], AgentView(tx, false));
    assert s'[tx.buyerId].currentHoldings == Update(game.gameStates[tx.buyerId], AgentView(tx, true)).currentHoldings;
    assert s'[tx.sellerId].currentHoldings == Update(game.gameStates[tx.sellerId], AgentView(tx, false)).currentHoldings;
  }

  /** Every agent's current score, in agent order. */
  function GetScores(game: Game): (scores: seq<int>)
    requires game.Wf() && game.NonNegative()
    ensures |scores| == game.NbAgents()
  {
    seq(|game.gameStates|, i requires 0 <= i < |game.gameStates| => Score(game.gameStates[i]))
  }

  /** Every agent scores at least its money and at most its money plus all its utilities. */
  lemma ScoresBounded(game: Game)
    requires game.Wf() && game.NonNegative()
    ensures forall i :: 0 <= i < |GetScores(game)| ==>
      game.gameStates[i].balance <= GetScores(game)[i] <= game.gameStates[i].balance + Sum(game.gameStates[i].utilities)
  {
    forall i | 0 <= i < |GetScores(game)|
      ensures game.gameStates[i].balance <= GetScores(game)[i] <= game.gameStates[i].balance + Sum(game.gameStates[i].utilities)
    {
      var st := game.gameStates[i];
      assert st.utilities == game.configuration.utilities[i];
      ScoreBounds(st.utilities, st.currentHoldings);
      assert st.utilities[..|st.currentHoldings|] == st.utilities;
    }
  }

  /**
   * Rebuilds a game from its configuration and history: each transaction is
   * checked for well-formedness and then settled, in order; the first refusal
   * is the result.
   */
  function Replay(c: GameConfiguration, txs: seq<GameTransaction>): (r: Result<Game, GameError>)
    requires c.Consistent()
    requires forall k :: 0 <= k < |txs| ==> txs[k].IdsInRange(c.NbAgents(), c.NbGoods())
    ensures r.Success? ==> r.value.Wf() && r.value.configuration == c
    decreases |txs|
  {
    if |txs| == 0 then Success(NewGame(c))
    else
      var last := txs[|txs| - 1];
      match Replay(c, txs[..|txs| - 1])
      case Failure(e) => Failure(e)
      case Success(game) =>
        var t := NewGameTransaction(last.buyerId, last.sellerId, last.amount, last.quantitiesByGoodId, last.timestamp);
        if t.Failure? then Failure(TxRefused(t.error)) else SettleTransaction(game, t.value)
  }

  /** A successful replay has recorded exactly the replayed history, in order. */
  lemma {:induction false} ReplayRecordsHistory(c: GameConfiguration, txs: seq<GameTransaction>)
    requires c.Consistent()
    requires forall k :: 0 <= k < |txs| ==> txs[k].IdsInRange(c.NbAgents(), c.NbGoods())
    requires Replay(c, txs).Success?
    ensures Replay(c, txs).value.transactions == txs
    decreases |txs|
  {
    if |txs| > 0 {
      var prefix := txs[..|txs| - 1];
      ReplayAppendsLast(c, txs);
      ReplayRecordsHistory(c, prefix);
      assert txs == prefix + [txs[|txs| - 1]];
    }
  }

  /** Each replayed transaction is appended to the history of the replayed prefix. */
  lemma ReplayAppendsLast(c: GameConfiguration, txs: seq<GameTransaction>)
    requires c.Consistent()
    requires forall k :: 0 <= k < |txs| ==> txs[k].IdsInRange(c.NbAgents(), c.NbGoods())
    requires |txs| > 0 && Replay(c, txs).Success?
    ensures Replay(c, txs[..|txs| - 1]).Success?
    ensures Replay(c, txs).value.transactions == Replay(c, txs[..|txs| - 1]).value.transactions + [txs[|txs| - 1]]
  {
    ReplayStep(c, txs);
  }

  /** A successful replay of a non-empty history is a successful replay of its prefix followed by settling the last transaction. */
  lemma ReplayStep(c: GameConfiguration, txs: seq<GameTransaction>)
    requires c.Consistent()
    requires forall k :: 0 <= k < |txs| ==> txs[k].IdsInRange(c.NbAgents(), c.NbGoods())
    requires |txs| > 0 && Replay(c, txs).Success?
    ensures Replay(c, txs[..|txs| - 1]).Success?
    ensures txs[|txs| - 1].WellFormed()
    ensures SettleTransaction(Replay(c, txs[..|txs| - 1]).value, txs[|txs| - 1]) == Replay(c, txs)
  {
    var last := txs[|txs| - 1];
    assert last == GameTransaction(last.buyerId, last.sellerId, last.amount, last.quantitiesByGoodId, last.timestamp);
  }

  /** Replay preserves total money and goods, and never leaves a negative balance or holding. */
  lemma {:induction false} ReplayConserves(c: GameConfiguration, txs: seq<GameTransaction>)
    requires c.Consistent()
    requires forall k :: 0 <= k < |txs| ==> txs[k].IdsInRange(c.NbAgents(), c.NbGoods())
    requires Replay(c, txs).Success?
    ensures Replay(c, txs).value.NonNegative()
    ensures TotalMoney(Replay(c, txs).value.gameStates) == Sum(c.initialMoneyAmounts)
    ensures forall g :: 0 <= g < c.NbGoods() ==>
      TotalGood(Replay(c, txs).value.gameStates, g) == TotalGood(NewGame(c).gameStates, g)
    decreases |txs|
  {
    var r := Replay(c, txs).value;
    if |txs| == 0 {
      assert Balances(r.gameStates) == c.initialMoneyAmounts;
    } else {
      var prefix := txs[..|txs| - 1];
      ReplayStep(c, txs);
      ReplayConserves(c, prefix);
      var game := Replay(c, prefix).value;
      var t := txs[|txs| - 1];
      SettleConservesMoney(game, t);
      SettleKeepsNonNegative(game, t);
      forall g | 0 <= g < c.NbGoods()
        ensures TotalGood(r.gameStates, g) == TotalGood(NewGame(c).gameStates, g)
      {
        SettleConservesGoods(game, t, g);
      }
    }
  }

  /**
   * Replaying a history and then settling one more transaction is the same
   * as replaying the longer history: the live game and its replay agree.
   */
  lemma ReplayExtends(c: GameConfiguration, txs: seq<GameTransaction>, tx: GameTransaction)
    requires c.Consistent()
    requires forall k :: 0 <= k < |txs| ==> txs[k].IdsInRange(c.NbAgents(), c.NbGoods())
    requires tx.WellFormed() && tx.IdsInRange(c.NbAgents(), c.NbGoods())
    requires Replay(c, txs).Success?
    ensures forall k :: 0 <= k < |txs + [tx]| ==> (txs + [tx])[k].IdsInRange(c.NbAgents(), c.NbGoods())
    ensures Replay(c, txs + [tx]) == SettleTransaction(Replay(c, txs).value, tx)
  {
    assert (txs + [tx])[..|txs|] == txs;
  }

  // ---------------------------------------------------------------------------
  // Worked examples from the source's documentation
  // ---------------------------------------------------------------------------

  /** The score of three quantities, good by good. */
  lemma ScoreThreeGoods(utilities: seq<int>, quantities: seq<int>)
    requires |utilities| == |quantities| == 3
    requires quantities[0] >= 0 && quantities[1] >= 0 && quantities[2] >= 0
    ensures ScoreGoodQuantities(utilities, quantities) ==
      ScoreGoodQuantity(utilities, 0, quantities[0])
      + ScoreGoodQuantity(utilities, 1, quantities[1])
      + ScoreGoodQuantity(utilities, 2, quantities[2])
  {
    var q1, q2 := quantities[..1], quantities[..2];
    assert q2[..1] == q1 && q1[..0] == [];
    assert ScoreGoodQuantities(utilities, q1) == ScoreGoodQuantity(utilities, 0, quantities[0]);
    assert ScoreGoodQuantities(utilities, q2) == ScoreGoodQuantities(utilities, q1) + ScoreGoodQuantity(utilities, 1, quantities[1]);
    assert quantities[..3] == quantities;
  }

  /** The two-agent configuration of the settlement example. */
  function TwoAgentConfiguration(): GameConfiguration {
    GameConfiguration([20, 20], [[0, 0], [1, 1]], [[10, 20], [10, 20]], 0, GenerateIds(2))
  }

  lemma TwoAgentConsistent()
    ensures TwoAgentConfiguration().Consistent()
  {
    GeneratedIdsDistinct(2);
    var u := TwoAgentConfiguration().utilities;
    assert ToSet(u[0]) == {10, 20};
    assert ToSet(u[1]) == {10, 20};
  }

  lemma TwoAgentConfigurationAccepted()
    ensures NewConfiguration([20, 20], [[0, 0], [1, 1]], [[10, 20], [10, 20]], 0, None) == Success(TwoAgentConfiguration())
  {
    TwoAgentConsistent();
  }

  /** Settling (buyer 0, seller 1, amount 20, one of each good) in the two-agent game. */
  lemma SettleExample()
    ensures TwoAgentConfiguration().Consistent()
    ensures
      var tx := GameTransaction(0, 1, 20, map[0 := 1, 1 := 1], "");
      && tx.WellFormed()
      && SettleTransaction(NewGame(TwoAgentConfiguration()), tx).Success?
      && SettleTransaction(NewGame(TwoAgentConfiguration()), tx).value.gameStates ==
         [GameState(0, [1, 1], [10, 20]), GameState(40, [0, 0], [10, 20])]
  {
    TwoAgentGame();
    TwoAgentDeltas();
  }

  lemma TwoAgentGame()
    ensures TwoAgentConfiguration().Consistent()
    ensures NewGame(TwoAgentConfiguration()).gameStates == [GameState(20, [0, 0], [10, 20]), GameState(20, [1, 1], [10, 20])]
    ensures TransactionValid(NewGame(TwoAgentConfiguration()), GameTransaction(0, 1, 20, map[0 := 1, 1 := 1], ""))
  {
    TwoAgentConsistent();
    var quantities := map[0 := 1, 1 := 1];
    assert forall g :: g in quantities ==> g == 0 || g == 1;
  }

  lemma TwoAgentDeltas()
    ensures ApplyDelta([0, 0], map[0 := 1, 1 := 1]) == [1, 1]
    ensures ApplyDelta([1, 1], Negate(map[0 := 1, 1 := 1])) == [0, 0]
  {
    var quantities := map[0 := 1, 1 := 1];
    assert Qty(quantities, 0) == 1 && Qty(quantities, 1) == 1;
    assert Qty(Negate(quantities), 0) == -1 && Qty(Negate(quantities), 1) == -1;
  }

  /** The three-agent configuration of the scoring example. */
  function ThreeAgentConfiguration(): GameConfiguration {
    GameConfiguration([20, 20, 20], [[1, 1, 0], [1, 0, 0], [0, 1, 2]],
                      [[20, 40, 60], [20, 60, 40], [40, 20, 60]], 1, GenerateIds(3))
  }

  lemma ThreeAgentConfigurationAccepted()
    ensures NewConfiguration([20, 20, 20], [[1, 1, 0], [1, 0, 0], [0, 1, 2]],
                             [[20, 40, 60], [20, 60, 40], [40, 20, 60]], 1, None) == Success(ThreeAgentConfiguration())
  {
    ThreeAgentConsistent();
  }

  lemma ThreeAgentConsistent()
    ensures ThreeAgentConfiguration().Consistent()
  {
    GeneratedIdsDistinct(3);
    var c := ThreeAgentConfiguration();
    ToSetThree(20, 40, 60);
    ToSetThree(20, 60, 40);
    ToSetThree(40, 20, 60);
    assert {20, 60, 40} == {20, 40, 60} && {40, 20, 60} == {20, 40, 60};
    assert forall i :: 0 <= i < 3 ==> Distinct(c.utilities[i]) && ToSet(c.utilities[i]) == ToSet(c.utilities[0]);
  }

  lemma ToSetThree(a: int, b: int, c: int)
    ensures ToSet([a, b, c]) == {a, b, c}
  {
    assert forall x :: x in [a, b, c] <==> x == a || x == b || x == c;
  }

  /** The three-agent game scores [80, 40, 100] before any trade. */
  lemma ScoresExample()
    ensures ThreeAgentConfiguration().Consistent()
    ensures GetScores(NewGame(ThreeAgentConfiguration())) == [80, 40, 100]
  {
    ThreeAgentConsistent();
    var game := NewGame(ThreeAgentConfiguration());
    ScoreThreeGoods([20, 40, 60], [1, 1, 0]);
    ScoreThreeGoods([20, 60, 40], [1, 0, 0]);
    ScoreThreeGoods([40, 20, 60], [0, 1, 2]);
  }

  /** `score_good_quantities([0, 1, 2])` with utilities [1, 2, 3] is 5. */
  lemma ScoreGoodQuantitiesExample()
    ensures ScoreGoodQuantities([1, 2, 3], [0, 1, 2]) == 5
  {
    ScoreThreeGoods([1, 2, 3], [0, 1, 2]);
  }

  /** A state scoring 120 would score 130 after paying 10 for one instance of good 0. */
  lemma ScoreAfterTransactionExample()
    ensures Score(GameState(20, [0, 1, 2], [20, 40, 60])) == 120
    ensures GetScoreAfterTransaction(GameState(20, [0, 1, 2], [20, 40, 60]), -10, map[0 := 1]) == Success(130)
  {
    ScoreThreeGoods([20, 40, 60], [0, 1, 2]);
    var h := ApplyDelta([0, 1, 2], map[0 := 1]);
    assert h == [1, 1, 2];
    ScoreThreeGoods([20, 40, 60], [1, 1, 2]);
  }
}
