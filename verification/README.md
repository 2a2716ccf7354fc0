# Trading Agent Competition core, in Dafny

This project models the core logic of the Trading Agent Competition (TAC)
framework. In TAC, agents trade goods for money, and a controller keeps the
authoritative ledger. The model covers:

- **The settlement ledger** (`Ledger`, tac/game.py):
  - consistency checks of a game configuration and of a transaction;
  - agents' scores, and the score a transaction would give;
  - validation and settlement of a transaction;
  - rebuilding a game by replaying its history.
- **Transaction ids** (`TransactionIds`): the id both parties of a negotiation derive on their own.
  - The four-field form `buyer_seller_dialogueId_starter` is the same in tac/agents/v1/base/helpers.py and tac/agents/participant/base/helpers.py, so it is modelled once.
  - The older three-field form comes from tac/helpers/misc.py.
- **The agent-side reactions** (`Reactions`, tac/agents/v1/base/reactions.py): how an agent reacts to:
  - controller responses: start, confirmation, state update, cancellation, errors;
  - search results from the discovery service (OEF);
  - negotiation messages.

  The agent is an immutable record. Each reaction is a function from record to record. The transaction manager is the map of locked transactions.
- **The participant agent's loop** (`ParticipantAgent`, tac/agents/v1/base/participant_agent.py):
  - `act`, dispatching on the game phase;
  - the bounded `react` loop and its three-way message classification (`Messages`);
  - `update`, the pending-transaction cleanup.
- **Envelope classifiers** of the newer framework (`Envelopes`, tac/agents/participant/base/helpers.py).
- **Small helpers** (`Misc`, tac/helpers/misc.py):
  - `escape_html`;
  - the scaling factor;
  - money endowments;
  - the table of good keys;
  - `build_dict`.
- **Agent names** of a simulation (`Simulation`, `_make_id` in tac/platform/simulation.py).

`Strings` models the Python string operations the core relies on: `str(n)`,
`int(s)`, `"{:0w}".format(n)`, `str.split` on one character, `str.join`, and
`math.ceil(math.log10(n))`. The last is computed on integers as the least k with
10^k >= n. `Wrappers` holds `Option` and `Result`.

Where the source refuses input with a check it runs on purpose, the model
returns `Failure`. This covers configuration and transaction consistency, the
validity check before settlement, the update check before a hypothetical score,
and an id that does not split into four fields. Where the source only relies on
a bare `assert` deep inside, or on list indexing failing, the model states the
condition as a precondition instead; "## Left out" lists each one.

## Model

| member | source | states |
|---|---|---|
| Ledger.NewConfiguration | tac/game.py:125-155 | A configuration is accepted exactly when it is consistent: money, endowments, utilities and fee non-negative; more than one agent; every dimension matches; at least one good; labels unique; every utility row has one value per good, and all rows have the same value set. |
| Ledger.GeneratedIdsDistinct | tac/game.py:103-109 | The default labels `agent_00`, `agent_01`, … are pairwise distinct. |
| Ledger.DefaultLabelsNeverDuplicate | tac/game.py:149 | A configuration built with the default labels is never refused for duplicate labels. |
| Ledger.UtilityRowsDistinct | tac/game.py:151-155 | When every utility row has the value set of the first row, and that set has one value per good, then no row repeats a value. |
| Ledger.LastIndexOf | tac/game.py:71 | Turning the labels into a dictionary keeps the last index of each label. A label that is not present has no index. |
| Ledger.AgentIdFromLabelInverts | tac/game.py:111-117 | In a consistent configuration, looking up the label of agent i gives back i. |
| Ledger.ScoreDependsOnlyOnHeldGoods | tac/game.py:418-441 | A good scores its utility when at least one unit is held, whatever the quantity, so two holdings that agree on which goods are held score the same. |
| Ledger.ScoreBounds | tac/game.py:418-441 | The holdings score lies between 0 and the sum of the utilities. |
| Ledger.ScoreGoodQuantitiesExample | tac/game.py:432-435 | Utilities [1,2,3] and quantities [0,1,2] score 5. |
| Ledger.ScoresBounded | tac/game.py:250-252 | Every agent scores at least its money and at most its money plus the sum of its utilities. |
| Ledger.ScoresExample | tac/game.py:189-208 | The three-agent example game scores [80, 40, 100]. |
| Ledger.ApplyDeltaUndo | tac/game.py:455-464 | Applying a change of holdings and then the opposite change gives the original holdings back. |
| Ledger.GetScoreAfterTransaction | tac/game.py:466-490 | The hypothetical score is refused exactly when money or some good would go negative. Money is checked first. Otherwise it is the score of the state with the deltas applied, and that state has no negative holding. |
| Ledger.ScoreAfterTransactionExample | tac/game.py:466-490 | A state scoring 120 that pays 10 for one unit of good 0 would score 130. |
| Ledger.Update | tac/game.py:492-501 | Applying a transaction moves money by its signed amount and each good by its signed quantity: the buyer pays and gains the goods, the seller the reverse. A negative good id counts from the end of the holdings, as Python list indexing does. Utilities stay the same. |
| Ledger.UpdateNegativeGoodIdExample | tac/game.py:499-501 | With holdings [0, 1], a buyer receiving one unit of good -1 for 5 ends with holdings [0, 2] and 5 less money. |
| Ledger.UpdateInRange | tac/game.py:492-501 | When every good id names a good, the update adds each signed quantity to that good's holding, the same change `_apply_delta_quantitites` makes. |
| Ledger.ScoreAfterTransactionPredictsUpdate | tac/game.py:466-501 | The hypothetical score of an allowed transaction equals the score after applying it with `update`. |
| Ledger.NewGameTransaction | tac/game.py:557-567 | A transaction is accepted exactly when buyer and seller differ, the amount is positive, and all good ids and quantities are non-negative. |
| Ledger.NewGame | tac/game.py:211-226 | A new game has no history, and agent i starts with its configured money, endowment and utilities. |
| Ledger.IsTransactionValid | tac/game.py:270-288 | The check passes exactly when the buyer can pay amount plus fee and the seller holds every quantity sold. |
| Ledger.SettleTransaction | tac/game.py:290-327 | Settling succeeds exactly when the transaction is valid, and then appends it to the history once. Every row other than the buyer's and the seller's stays as it was. |
| Ledger.SettleConservesMoney | tac/game.py:325-327 | Settling keeps the total money of all agents. |
| Ledger.SettleConservesGoods | tac/game.py:319-323 | Settling keeps the total quantity of each good. |
| Ledger.SettleKeepsNonNegative | tac/game.py:317-327 | After a valid settlement no balance or holding is negative, because the fee is non-negative. |
| Ledger.SettleAgreesWithAgentUpdate | tac/game.py:317-327 | The buyer's and seller's new rows are what each agent's own `update` of the transaction computes. |
| Ledger.SettleExample | tac/game.py:293-309 | In the two-agent example, agent 0 ends with balance 0 and holdings [1,1], and agent 1 with balance 40 and holdings [0,0]. |
| Ledger.ReplayRecordsHistory | tac/game.py:366-375 | A successful replay records exactly the replayed transactions, in order. |
| Ledger.ReplayConserves | tac/game.py:366-375 | A successful replay ends with no negative balance or holding. The total money and each good's total are those of the configuration. |
| Ledger.ReplayExtends | tac/game.py:371-373 | Replaying one more transaction is settling it on the replayed game. |
| TransactionIds.GenerateTransactionId | tac/agents/v1/base/helpers.py:68-82 | The id starts with the buyer's key and ends with the dialogue starter's key. |
| TransactionIds.BothPartiesSameId | tac/agents/participant/base/helpers.py:96-98 | The buyer and the seller of a dialogue derive the same id. |
| TransactionIds.DialogueLabelFromTransactionId | tac/agents/v1/base/helpers.py:85-99 | Decoding succeeds exactly when the id splits into four fields and the third reads as an integer. The opponent is the second field when the agent is the first, and the first field otherwise, also when the agent is neither. The starter is the fourth field as written. Any id without exactly three separators fails. |
| TransactionIds.DecodeIgnoresSpaceAroundDialogueId | tac/agents/v1/base/helpers.py:93-98 | White space around the dialogue id field does not change the decoded label, because `int` ignores it. |
| TransactionIds.DecodeEncodeRoundTrip | tac/agents/v1/base/helpers.py:80-98 | With separator-free keys and an agent that is not its own opponent, decoding the id an agent generated gives back the dialogue label. |
| TransactionIds.EncodeDecodeRoundTrip | tac/agents/participant/base/helpers.py:97-116 | Take a decodable id, in canonical integer form, naming two different keys, the agent's among them. Encoding its decoded label from the agent's role gives back the id. |
| TransactionIds.UnderscoreKeyBreaksDecoding | tac/agents/v1/base/helpers.py:93 | If any key contains the separator, the generated id cannot be decoded by anyone. |
| TransactionIds.GenerateTransactionId3 | tac/helpers/misc.py:43-56 | The three-field id starts with the buyer's key. |
| TransactionIds.BothPartiesSameId3 | tac/helpers/misc.py:54-55 | Both parties derive the same three-field id. |
| TransactionIds.FieldsOfId3 | tac/helpers/misc.py:54-55 | With separator-free keys, splitting the three-field id gives back buyer, seller and dialogue id. |
| TransactionIds.Id3NeverDecodes | tac/helpers/misc.py:54-55 | A three-field id is never accepted by the four-field decoder. |
| Messages.Classify | tac/agents/v1/base/helpers.py:35-65 | Every message falls into exactly one class. The three OEF kinds come first, then controller messages (decodable byte messages), and everything else is a dialogue message from an agent. |
| Messages.NegotiationNeverController | tac/agents/v1/base/helpers.py:53-54 | A CFP, proposal, accept or decline is never a controller message, whatever the decoder says. |
| Envelopes.OefClassReadsOnlyTypeTag | tac/agents/participant/base/helpers.py:42-49 | Two envelopes with the same protocol and the same type field are both OEF messages or both not. The addressee, the sender and the other fields play no part. Accepting more OEF types never loses an OEF message. |
| Envelopes.FipaClassReadsOnlyPerformative | tac/agents/participant/base/helpers.py:80-82 | Two envelopes with the same protocol and the same performative field are both FIPA messages or both not. Accepting more performatives never loses a FIPA message. |
| Envelopes.ControllerClassReadsOnlyContent | tac/agents/participant/base/helpers.py:52-77 | Two envelopes with the same protocol, sender and content field are both controller messages or both not. The addressee and the other fields play no part. |
| Envelopes.ClassesDisjoint | tac/agents/participant/base/helpers.py:42-82 | No envelope is in two of the three classes, whatever the tag sets and the decoder. |
| Envelopes.UnknownTagsNotClassified | tac/agents/participant/base/helpers.py:42-82 | An envelope whose type and performative are missing or unknown is neither an OEF nor a FIPA message. |
| Reactions.OnStart | tac/agents/v1/base/reactions.py:91-101 | From any phase, the game starts: the agent takes its opening state and enters the game phase, and nothing else changes. |
| Reactions.OnTransactionConfirmed | tac/agents/v1/base/reactions.py:108-123 | An unknown id changes nothing except queueing one state-update request to the controller. A locked id is unlocked and its transaction applied, and nothing else changes. |
| Reactions.ConfirmationAppliesOnce | tac/agents/v1/base/reactions.py:117-123 | A second confirmation of the same id does not apply the transaction again. It only asks for a state update. |
| Reactions.UpdatesCommute | tac/game.py:492-501 | Applying two transactions to an agent's state gives the same result in either order. |
| Reactions.ConfirmationsCommute | tac/agents/v1/base/reactions.py:117-123 | Confirmations of two different locked transactions give the same agent in either order. |
| Reactions.OnStateUpdate | tac/agents/v1/base/reactions.py:134-142 | The controller's state replaces the agent's, and nothing else changes. |
| Reactions.StateUpdateOverridesLocalView | tac/agents/v1/base/reactions.py:117-142 | The controller's view wins. A later state update overrides an earlier one. After a confirmation the agent could not match, the state update it asked for leaves the agent in the controller's state, with nothing else changed but the queued request. |
| Reactions.GamePhaseLastsUntilCancelled | tac/agents/v1/base/reactions.py:91-156 | In the game phase, every controller response except a cancellation keeps the agent in the game phase. A cancellation ends the game. |
| Reactions.StoppedStaysStoppedOnResponse | tac/agents/v1/base/reactions.py:148-181 | No controller response clears the stopped flag. |
| Reactions.OnCancelled | tac/agents/v1/base/reactions.py:148-156 | From any phase, cancellation stops the agent and ends the game, and nothing else changes. |
| Reactions.TxIdFromErrorMessage | tac/agents/v1/base/reactions.py:169-170 | The id is what follows the first 31 characters. A shorter message gives the empty id. |
| Reactions.TxIdFromErrorMessageRoundTrip | tac/agents/v1/base/reactions.py:169-170 | The id written after "Error in checking transaction: " is the id read back. |
| Reactions.OnTacError | tac/agents/v1/base/reactions.py:158-181 | A refused transaction is removed from the locked ones (a no-op if it was not locked). The three identity errors stop the agent. The other codes change nothing. |
| Reactions.RefusalOfUnlockedIsNoop | tac/agents/v1/base/reactions.py:171-174 | A refusal of a transaction that is not locked leaves the agent unchanged. |
| Reactions.RefusedThenConfirmedResyncs | tac/agents/v1/base/reactions.py:117-172 | After the controller refuses a transaction, a late confirmation of it does not change the agent's state. It asks for a state update instead. |
| Reactions.OnControllerSearchResult | tac/agents/v1/base/reactions.py:257-281 | Outside the pre-game phase, or with no hit, nothing changes. Several hits stop the agent. Exactly one hit is recorded as the controller, with phase game setup and one message queued to it: registration, or a state-update request when rejoining. |
| Reactions.ControllerFoundOnce | tac/agents/v1/base/reactions.py:265-267 | Once the controller is found, later controller search results change nothing. |
| Reactions.Counterparts | tac/agents/v1/base/reactions.py:292-295 | The counterparts are exactly the agents found other than the agent itself, without repetition. |
| Reactions.SendCfps | tac/agents/v1/base/reactions.py:304-310 | Counterpart i gets the CFP with message id 1, target 0 and the (last + 1 + i)-th dialogue id, queued in order after what was there. Only the dialogues and the out queue change. |
| Reactions.SendCfpsDialogues | tac/agents/v1/base/reactions.py:304-309 | Each counterpart gets a new self-initiated dialogue holding just its CFP. Earlier dialogues stay as they were. |
| Reactions.OnServicesSearchResult | tac/agents/v1/base/reactions.py:283-310 | Without services to offer or request, nothing changes. Otherwise only the dialogues and the queue change, and the last dialogue id advances by the number of messages queued. The queued messages are CFPs with message id 1 and target 0, opening consecutive dialogue ids. Every found agent other than the agent itself gets exactly one, and the agent itself gets none. |
| Reactions.SearchResultRouting | tac/agents/v1/base/reactions.py:216-233 | A search result never changes the agent's state, its locked transactions, its searches or what it has sent, and only adds to the queue. The controller search never opens a dialogue. A seller or buyer search never changes the phase, the controller or the stopped flag. An unknown search id changes nothing. |
| Reactions.HandleInDialogue | tac/agents/v1/base/reactions.py:404-427 | The message is appended to the dialogue's incoming messages before the behaviour answers. The replies are exactly the behaviour's answer on that dialogue: its one reply to a CFP or a proposal, or its list of replies to an accept. A decline or a byte message gets none. The replies are appended to the dialogue's outgoing messages. |
| Reactions.OnNewDialogue | tac/agents/v1/base/reactions.py:362-376 | A CFP opens a dialogue labelled by its id and sender. The agent is the seller exactly when the CFP describes demand. The dialogue holds the CFP and the behaviour's reply to it, and that reply is queued. Every other dialogue, the dialogue counter and the rest of the agent stay as they were. |
| Reactions.OnExistingDialogue | tac/agents/v1/base/reactions.py:378-390 | The message is recorded in its dialogue. The behaviour's replies on that dialogue are appended to its outgoing messages and queued in the same order. Every other dialogue, the dialogue counter and the rest of the agent stay as they were. |
| Reactions.DialogueMessageRouting | tac/agents/v1/base/reactions.py:362-390 | On every route, handling a negotiation message changes only the dialogues and the queue, keeps the dialogue counter, and only adds to the queue. A message routed to a known dialogue changes only that dialogue. A CFP opening a dialogue changes only the new one. Either way the queued messages are the behaviour's replies. Any other message leaves the dialogues alone. |
| Reactions.OnUnidentifiedDialogue | tac/agents/v1/base/reactions.py:392-402 | Only one byte message is queued: the reply to the same dialogue and peer, with the next message id. |
| Reactions.UnidentifiedRouteLeavesDialogues | tac/agents/v1/base/reactions.py:392-402 | A message the registry cannot place leaves every dialogue as it was and is answered as unidentified. This covers an unregistered label and a new dialogue not opened by a CFP. |
| Reactions.Flush | tac/agents/v1/base/participant_agent.py:127 | Everything queued is sent, in order, and nothing else changes. |
| ParticipantAgent.React | tac/agents/v1/base/participant_agent.py:106-127 | Exactly min(inbox size, max(max_reactions, 0)) items are handled, in order, and then the outbox is flushed. The rest stay in the inbox. |
| ParticipantAgent.DispatchFollowsClass | tac/agents/v1/base/participant_agent.py:116-125 | Each message goes to the handler of its class: OEF first, then controller, then dialogue. |
| ParticipantAgent.EmptyDequeuesChangeNothing | tac/agents/v1/base/participant_agent.py:114-116 | Empty dequeues leave the agent unchanged; they only use up the budget. |
| ParticipantAgent.DispatchAllAppend | tac/agents/v1/base/participant_agent.py:113-125 | Handling a sequence of messages is handling its first part and then the rest. |
| ParticipantAgent.Act | tac/agents/v1/base/participant_agent.py:90-104 | The queue is flushed, followed by the phase's requests: the controller search before the game, and the services update and search when each is due during the game. |
| ParticipantAgent.ActByPhase | tac/agents/v1/base/participant_agent.py:96-104 | Before the game only the controller search is requested. In game setup or after the game only the flush happens. |
| ParticipantAgent.Update | tac/agents/v1/base/participant_agent.py:129-135 | The locked transactions that timed out are dropped, the others are kept unchanged, and nothing else changes. |
| ParticipantAgent.UpdateIdempotent | tac/agents/v1/base/participant_agent.py:129-135 | Cleaning up twice with the same timeouts is the same as cleaning up once. |
| ParticipantAgent.GamePhaseLastsUntilCancelled | tac/agents/v1/base/participant_agent.py:106-125 | An agent in the game phase is still in it after handling any items, unless one of them is the controller's cancellation. |
| ParticipantAgent.StoppedIsPermanent | tac/agents/v1/base/participant_agent.py:90-135 | A stopped agent stays stopped through `react`'s handling and flush, through `act` and through `update`. |
| ParticipantAgent.TimedOutThenConfirmedResyncs | tac/agents/v1/base/reactions.py:117-120 | A confirmation that arrives after its transaction timed out leaves the state unchanged and asks for a state update. |
| Misc.EscapeHtml | tac/helpers/misc.py:350-365 | The output contains no `<` or `>`. With `quote` it also contains no `"` or `'`. |
| Misc.EscapeHtmlIsCharwise | tac/helpers/misc.py:359-365 | Replacing `&` first makes the chain of replacements equal to escaping each character on its own, so entities are never escaped twice. |
| Misc.UnescapeEscape | tac/helpers/misc.py:359-365 | Escaping loses nothing: reading the five entities back gives the original text. |
| Misc.EscapeHtmlIdentity | tac/helpers/misc.py:359-365 | Text without special characters is left unchanged: `& < > " '`, or just `& < >` when `quote` is false. |
| Misc.EscapeHtmlAppend | tac/helpers/misc.py:359-365 | Escaping a concatenation is concatenating the escapes. |
| Misc.DetermineScalingFactor | tac/helpers/misc.py:59-67 | The scaling factor is at least 1. |
| Misc.ScalingFactorBrackets | tac/helpers/misc.py:66 | For a positive amount, the factor is the largest power of ten not above it; for 0 it is 1. |
| Misc.ScalingFactorIsPowerOfTen | tac/helpers/misc.py:66 | The factor is an integer power of ten for any amount, negative ones included. |
| Misc.GenerateMoneyEndowments | tac/helpers/misc.py:153-161 | There is one entry per agent (none for a non-positive count), and each entry is the endowment. |
| Misc.MoneyEndowmentsTotal | tac/helpers/misc.py:161 | The endowments add up to the number of agents times the endowment. |
| Misc.GenerateGoodPbkToName | tac/helpers/misc.py:313-322 | There are exactly `nb_goods` entries. Each key is its name plus "_pbk", and good i's key maps to good i's name. |
| Misc.GoodPbksDistinct | tac/helpers/misc.py:320-322 | Different goods get different keys. |
| Misc.GoodNamesCommonWidth | tac/helpers/misc.py:320-322 | All names have the same length, and the digits after "tac_good_" read back as the good's index. |
| Misc.GoodNamesExample | tac/helpers/misc.py:320-322 | With 10 goods, "tac_good_3_pbk" names "tac_good_3"; with 11, "tac_good_03_pbk" names "tac_good_03". |
| Misc.BuildDict | tac/helpers/misc.py:299-310 | The services are exactly the given goods, and the description is "tac_supply" exactly for supply, else "tac_demand". |
| Misc.BuildDictDescriptionRoundTrip | tac/agents/participant/base/helpers.py:204-215 | The description tells back whether the dictionary is for supply. |
| Simulation.MakeId | tac/platform/simulation.py:110-135 | The name starts with "tac_agent_" and ends with "_wm" exactly for world-modeling agents. |
| Simulation.MakeIdRecoversId | tac/platform/simulation.py:129-134 | The number after "tac_agent_" reads back as the agent id. |
| Simulation.MakeIdCommonLength | tac/platform/simulation.py:129 | Every agent of a simulation has a name of the same length: the id is padded to ceil(log10 n) digits. |
| Simulation.MakeIdExampleTen | tac/platform/simulation.py:116-117 | Agent 2 of 10 is "tac_agent_2", or "tac_agent_2_wm" when it models the world. |
| Simulation.MakeIdExampleHundred | tac/platform/simulation.py:118-121 | Agent 2 is "tac_agent_02" among 100 agents and "tac_agent_002" among 101. |
| Strings.CeilLog10 | tac/platform/simulation.py:129 | The width is the least k with 10^k >= n. |
| Strings.FormatPadded | tac/game.py:109 | The padded text is all digits, as long as the width or the number's own digits, and reads back as the number. |
| Strings.ParseIntRoundTrip | tac/agents/v1/base/helpers.py:98 | `int(str(i)) == i` for every integer. |
| Strings.ParseIntIgnoresSurroundingSpace | tac/agents/v1/base/helpers.py:98 | White space before and after the text does not change what `int` reads. |
| Strings.SplitJoin | tac/agents/v1/base/helpers.py:81-93 | Splitting separator-free fields joined by the separator gives back the fields. |
| Strings.JoinSplit | tac/agents/v1/base/helpers.py:93 | Joining the pieces of a split gives back the text. |

## Left out

- Floating point:
  - `math.log10` is replaced by the integer `Strings.CeilLog10`, which can differ from the float computation only where rounding would.
  - `determine_scaling_factor` returns the float `10.0 ** k`; the model returns the integer.
  - The utility, equilibrium and marginal-utility functions of tac/helpers/misc.py are float and numpy code.
- Randomness: `generate_good_endowments` and the utility samplers in tac/helpers/misc.py.
- OEF schema objects (`build_datamodel`, `build_query`, `get_goods_quantities_description`): the SDK types are not part of this model.
- Decoding a controller response (protobuf and signatures) is a parameter, the `Decoder`. In `Envelopes.IsControllerMessage` it is a function of the content field and the sender, `ContentDecodes`.
- OEF and FIPA tags: the enumerations of OEF message types and FIPA performatives are not part of this model; they are sets given as input.
- Timestamps of game transactions are opaque strings, and `to_dict`/`from_dict` serialisation is not modelled. `Ledger.Replay` replays the already-parsed transactions.
- Set and dictionary iteration order:
  - `Ledger.IsTransactionValid` walks good ids in increasing order; the verdict does not depend on the order.
  - `Reactions.Counterparts` keeps first-occurrence order, where the source iterates a Python set.
  - `build_dict` returns a set of services rather than a list.
- Preconditions where the source relies on an `assert` or on indexing:
  - Ledger.SettleTransaction and Ledger.Replay require `WellFormed` and `IdsInRange`. In the source an agent id of `nb_agents` or more raises `IndexError`. A negative agent id passes `_check_consistency` (tac/game.py:564-567) and then indexes `game_states` from the end (tac/game.py:317-318), settling against another agent. Neither case is modelled.
  - Ledger.ScoreGoodQuantity, Ledger.ScoreGoodQuantities and Ledger.Score require a good id below the number of goods and non-negative quantities, which tac/game.py:425-426 assert.
  - Ledger.GetScoreAfterTransaction requires non-negative holdings, which the scoring at tac/game.py:488 asserts through lines 425-426. It also requires good ids that name goods; `_apply_delta_quantitites` would index a negative id from the end.
  - TransactionIds.GenerateTransactionId requires the opponent to be the label's opponent, which tac/agents/v1/base/helpers.py:79 asserts.
- Ledger.Update: a good id of `nb_goods` or more, or below `-nb_goods`, raises `IndexError` in the source. The model ignores such an entry instead. An id in -nb_goods..-1 is indexed from the end, as in the source.
- Ledger.Update: the agent-side `update(transaction, tx_fee)` called at tac/agents/v1/base/reactions.py:123 belongs to a class that is not part of this model. Confirmations apply tac/game.py's `GameState.update`, which moves no fee.
- TransactionIds.DialogueLabelFromTransactionId: Python's `int` also accepts non-ASCII decimal digits and underscores between digits. The model accepts ASCII digits only. It does ignore the same surrounding white space as Python. An underscore can never reach the dialogue id field, because the id is split on it.
- Reactions.OnNewDialogue: a CFP's query reaches the model already decoded, as a `Misc.ServicesDict`. tac/agents/v1/base/reactions.py:370-371 decodes the query bytes as UTF-8 JSON and reads its `description` key. That raises on a query that is not UTF-8, is not JSON, or has no `description`. The model has no such error path.
- Reactions.OnTransactionConfirmed: after applying, the source decodes the id only to record statistics. That decoding (and the exception it would raise on an id without four fields) is not modelled.
- Collaborators that are not part of this model become inputs:
  - the negotiation behaviour (`on_cfp`, `on_propose`, `on_accept`);
  - `build_services_dict`;
  - the dialogue registry's routing decision.

  These are gathered in `Reactions.Behaviour`. What the negotiation behaviour does to the agent itself is not modelled. The main such effect is locking a transaction when it accepts. So no operation of the model adds to the locked transactions: they are part of the agent record a caller supplies.
- Dialogue handling:
  - Reactions.OnDialogueMessage treats a route the model cannot act on as an unidentified dialogue: a label that is not registered, or a new dialogue not opened by a CFP.
  - Ids of self-initiated dialogues are assumed to be one above the last id handed out.
  - A dialogue's role string and a decline's effect on the behaviour are not modelled.
- Controller dispatch: the controller handler is not part of this model. `Reactions.OnControllerResponse` sends each response kind to its reaction, without any phase filtering the handler may apply.
- `GameData` is reduced to the opening agent state the agent builds from it. A state update replaces the agent state.
- ParticipantAgent.Update: the transaction manager's timeout logic is not part of this model. Which locked transactions timed out is an input, and the cleanup of pending proposals is not modelled.
- Act and the OEF handler: `act` queues the discovery-service requests instead of calling the OEF handler. Whether it is time to update or search services is an input, because it depends on the clock.
- Misc.GenerateGoodPbkToName: requires at least one good, since `math.log10(0)` raises.
- Simulation.MakeId: requires at least one agent, for the same reason.
- Not modelled at all:
  - dashboards and logging;
  - the inbox/outbox transport, beyond the `outQueue`/`sent` split;
  - `ParticipantAgent.start` retry and sleep;
  - process spawning and argument parsing in tac/platform/simulation.py.
