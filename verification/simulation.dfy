/** Names of the baseline agents a simulation launches. */
module Simulation {
  import opened Wrappers
  import opened Strings

  const AgentPrefix: string := "tac_agent_"
  const WorldModelingSuffix: string := "_wm"

  /**
   * "tac_agent_" followed by the agent id zero-padded to ceil(log10 n)
   * digits, with "_wm" appended for world-modeling agents. There is no name
   * for fewer than one agent (the logarithm is undefined).
   */
  function MakeId(agentId: int, isWorldModeling: bool, nbAgents: nat): (name: string)
    requires nbAgents >= 1
    ensures StartsWith(name, AgentPrefix)
    ensures EndsWith(name, WorldModelingSuffix) <==> isWorldModeling
  {
    var digits := FormatPaddedInt(agentId, CeilLog10(nbAgents));
    var name := AgentPrefix + digits + (if isWorldModeling then WorldModelingSuffix else "");
    assert name[..|AgentPrefix|] == AgentPrefix;
    LastIsDigit(agentId, CeilLog10(nbAgents));
    assert !isWorldModeling ==> name[|name| - 1] == digits[|digits| - 1];
    assert isWorldModeling ==> name[|name| - 3..] == WorldModelingSuffix;
    name
  }

  /** A padded integer always ends in a digit, so it never ends in the suffix. */
  lemma LastIsDigit(i: int, w: int)
    ensures IsDigit(FormatPaddedInt(i, w)[|FormatPaddedInt(i, w)| - 1])
  {
    var s := FormatPaddedInt(i, w);
    if i < 0 {
      assert s[|s| - 1] == s[1..][|s| - 2];
    }
  }

  /** The number written in a name without the suffix is the agent id. */
  lemma MakeIdRecoversId(agentId: int, nbAgents: nat)
    requires nbAgents >= 1
    ensures ParseInt(MakeId(agentId, false, nbAgents)[|AgentPrefix|..]) == Some(agentId)
  {
    var name := MakeId(agentId, false, nbAgents);
    var digits := FormatPaddedInt(agentId, CeilLog10(nbAgents));
    assert name[|AgentPrefix|..] == digits;
    ParseFormatPaddedInt(agentId, CeilLog10(nbAgents));
  }

  /** All ids of one simulation get names of the same length. */
  lemma MakeIdCommonLength(agentId: nat, isWorldModeling: bool, nbAgents: nat)
    requires nbAgents >= 1 && agentId < nbAgents
    ensures |MakeId(agentId, isWorldModeling, nbAgents)| ==
      |AgentPrefix| + (if CeilLog10(nbAgents) == 0 then 1 else CeilLog10(nbAgents))
      + (if isWorldModeling then |WorldModelingSuffix| else 0)
  {
    PaddedWidthIsCommon(agentId, CeilLog10(nbAgents));
  }

  lemma CeilLog10Examples()
    ensures CeilLog10(10) == 1 && CeilLog10(100) == 2 && CeilLog10(101) == 3
  {
    assert CeilLog10(2) == 1;
    assert CeilLog10(11) == 2;
  }

  lemma PaddedTwoExamples()
    ensures FormatPaddedInt(2, 1) == "2" && FormatPaddedInt(2, 2) == "02" && FormatPaddedInt(2, 3) == "002"
  {
    assert NatToDecimal(2) == "2";
    assert Zeros(1) == "0";
    assert Zeros(2) == "00";
  }

  /** Agent 2 is "tac_agent_2" among 10 agents and "tac_agent_2_wm" when it models the world. */
  lemma MakeIdExampleTen()
    ensures MakeId(2, false, 10) == "tac_agent_2"
    ensures MakeId(2, true, 10) == "tac_agent_2_wm"
  {
    CeilLog10Examples();
    PaddedTwoExamples();
  }

  /** Agent 2 is "tac_agent_02" among 100 agents and "tac_agent_002" among 101. */
  lemma MakeIdExampleHundred()
    ensures MakeId(2, false, 100) == "tac_agent_02"
    ensures MakeId(2, false, 101) == "tac_agent_002"
  {
    CeilLog10Examples();
    PaddedTwoExamples();
  }
}
