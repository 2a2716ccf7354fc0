/**
 * Small helpers of the platform: HTML escaping, the money scaling factor,
 * the initial money amounts, the good key-to-name table and the
 * supply/demand services dictionary.
 */
module Misc {
  import opened Wrappers
  import opened Strings
  import Ledger

  // ---------------------------------------------------------------------------
  // escape_html
  // ---------------------------------------------------------------------------

  /** Python's `s.replace(c, rep)` for a one-character pattern. */
  function ReplaceChar(s: string, c: char, rep: string): (r: string)
    ensures c !in rep ==> c !in r
    ensures forall x :: x in r && x !in rep ==> x in s
    decreases |s|
  {
    if |s| == 0 then ""
    else (if s[0] == c then rep else [s[0]]) + ReplaceChar(s[1..], c, rep)
  }

  lemma ReplaceSingle(x: char, c: char, rep: string)
    ensures ReplaceChar([x], c, rep) == if x == c then rep else [x]
  {
    assert [x][1..] == [];
  }

  /** Replacing a character that does not occur changes nothing. */
  lemma {:induction false} ReplaceAbsent(s: string, c: char, rep: string)
    requires c !in s
    ensures ReplaceChar(s, c, rep) == s
    decreases |s|
  {
    if |s| > 0 {
      ReplaceAbsent(s[1..], c, rep);
      assert s == [s[0]] + s[1..];
    }
  }

  /** Replacement works piecewise: on a concatenation it is the concatenation of the replacements. */
  lemma {:induction false} ReplaceAppend(a: string, b: string, c: char, rep: string)
    ensures ReplaceChar(a + b, c, rep) == ReplaceChar(a, c, rep) + ReplaceChar(b, c, rep)
    decreases |a|
  {
    if |a| > 0 {
      ReplaceAppend(a[1..], b, c, rep);
      assert (a + b)[1..] == a[1..] + b;
    } else {
      assert a + b == b;
    }
  }

  /**
   * Replaces `&`, `<` and `>` by their HTML entities, `&` first, and with
   * `quote` also the double and the single quote.
   */
  function EscapeHtml(s: string, quote: bool): (r: string)
    ensures '<' !in r && '>' !in r
    ensures quote ==> '"' !in r && '\'' !in r
  {
    var s1 := ReplaceChar(s, '&', "&amp;");
    var s2 := ReplaceChar(s1, '<', "&lt;");
    var s3 := ReplaceChar(s2, '>', "&gt;");
    if quote then
      var s4 := ReplaceChar(s3, '"', "&quot;");
      ReplaceChar(s4, '\'', "&#x27;")
    else s3
  }

  /** The text one character turns into. */
  function EscapeChar(c: char, quote: bool): string {
    if c == '&' then "&amp;"
    else if c == '<' then "&lt;"
    else if c == '>' then "&gt;"
    else if quote && c == '"' then "&quot;"
    else if quote && c == '\'' then "&#x27;"
    else [c]
  }

  /** Escaping character by character, each character independently of the others. */
  function EscapeCharwise(s: string, quote: bool): string
    decreases |s|
  {
    if |s| == 0 then "" else EscapeChar(s[0], quote) + EscapeCharwise(s[1..], quote)
  }

  lemma EscapeHtmlAppend(a: string, b: string, quote: bool)
    ensures EscapeHtml(a + b, quote) == EscapeHtml(a, quote) + EscapeHtml(b, quote)
  {
    ReplaceAppend(a, b, '&', "&amp;");
    var a1, b1 := ReplaceChar(a, '&', "&amp;"), ReplaceChar(b, '&', "&amp;");
    ReplaceAppend(a1, b1, '<', "&lt;");
    var a2, b2 := ReplaceChar(a1, '<', "&lt;"), ReplaceChar(b1, '<', "&lt;");
    ReplaceAppend(a2, b2, '>', "&gt;");
    var a3, b3 := ReplaceChar(a2, '>', "&gt;"), ReplaceChar(b2, '>', "&gt;");
    if quote {
      ReplaceAppend(a3, b3, '"', "&quot;");
      ReplaceAppend(ReplaceChar(a3, '"', "&quot;"), ReplaceChar(b3, '"', "&quot;"), '\'', "&#x27;");
    }
  }

  /** The replacement steps of the chain from step `from` on (0 is `&`, 4 is the single quote). */
  function EscapeSteps(s: string, from: nat, quote: bool): string
    decreases 5 - from
  {
    if from >= 5 then s
    else if from == 0 then EscapeSteps(ReplaceChar(s, '&', "&amp;"), 1, quote)
    else if from == 1 then EscapeSteps(ReplaceChar(s, '<', "&lt;"), 2, quote)
    else if from == 2 then EscapeSteps(ReplaceChar(s, '>', "&gt;"), 3, quote)
    else if !quote then s
    else if from == 3 then EscapeSteps(ReplaceChar(s, '"', "&quot;"), 4, quote)
    else ReplaceChar(s, '\'', "&#x27;")
  }

  /** The character each step replaces, and the entity it writes instead. */
  function StepChar(step: nat): char
    requires step < 5
  {
    ['&', '<', '>', '"', '\''][step]
  }

  function StepEntity(step: nat): string
    requires step < 5
  {
    ["&amp;", "&lt;", "&gt;", "&quot;", "&#x27;"][step]
  }

  /** Steps whose character does not occur in the text can be skipped. */
  lemma {:induction false} SkipSteps(t: string, from: nat, upTo: nat, quote: bool)
    requires from <= upTo <= 5
    requires forall step :: from <= step < upTo && (step < 3 || quote) ==> StepChar(step) !in t
    ensures EscapeSteps(t, from, quote) == EscapeSteps(t, upTo, quote)
    decreases upTo - from
  {
    if from < upTo {
      if from < 3 || quote {
        ReplaceAbsent(t, StepChar(from), StepEntity(from));
      }
      SkipSteps(t, from + 1, upTo, quote);
    }
  }

  lemma EscapeHtmlIsSteps(s: string, quote: bool)
    ensures EscapeHtml(s, quote) == EscapeSteps(s, 0, quote)
  {
  }

  /** A character with an entity passes the earlier steps, is replaced at its own, and the entity passes the later ones. */
  lemma OneCharEntity(step: nat, quote: bool)
    requires step < 5 && (step < 3 || quote)
    ensures EscapeSteps([StepChar(step)], 0, quote) == StepEntity(step)
  {
    var c, e := StepChar(step), StepEntity(step);
    StepCharsDistinct();
    assert forall k :: 0 <= k < step ==> StepChar(k) !in [c];
    SkipSteps([c], 0, step, quote);
    StepReplaces([c], step, quote);
    ReplaceSingle(c, c, e);
    EntitiesHaveNoLaterChar();
    assert forall k :: step + 1 <= k < 5 ==> StepChar(k) !in e;
    SkipSteps(e, step + 1, 5, quote);
  }

  lemma StepCharsDistinct()
    ensures forall i, j :: 0 <= i < j < 5 ==> StepChar(i) != StepChar(j)
  {
  }

  /** The entity written by a step contains none of the characters later steps replace. */
  lemma EntitiesHaveNoLaterChar()
    ensures forall i, j :: 0 <= i < j < 5 ==> StepChar(j) !in StepEntity(i)
  {
    forall i, j | 0 <= i < j < 5
      ensures StepChar(j) !in StepEntity(i)
    {
      var e := StepEntity(i);
      assert forall k :: 0 <= k < |e| ==> e[k] in "&amp;lt;gt;quot;#x27";
    }
  }

  /** An enabled step replaces its character and hands over to the next step. */
  lemma StepReplaces(t: string, step: nat, quote: bool)
    requires step < 5 && (step < 3 || quote)
    ensures EscapeSteps(t, step, quote) == EscapeSteps(ReplaceChar(t, StepChar(step), StepEntity(step)), step + 1, quote)
  {
    if step == 4 {
      var u := ReplaceChar(t, StepChar(step), StepEntity(step));
      assert EscapeSteps(u, 5, quote) == u;
    }
  }

  lemma EscapeHtmlOneChar(c: char, quote: bool)
    ensures EscapeHtml([c], quote) == EscapeChar(c, quote)
  {
    EscapeHtmlIsSteps([c], quote);
    if c == '&' {
      OneCharEntity(0, quote);
    } else if c == '<' {
      OneCharEntity(1, quote);
    } else if c == '>' {
      OneCharEntity(2, quote);
    } else if quote && c == '"' {
      OneCharEntity(3, quote);
    } else if quote && c == '\'' {
      OneCharEntity(4, quote);
    } else {
      SkipSteps([c], 0, 5, quote);
    }
  }

  /**
   * The chain of whole-string replacements escapes each character on its
   * own: because `&` goes first, the `&` of an entity made by a later step
   * is never escaped again.
   */
  lemma {:induction false} EscapeHtmlIsCharwise(s: string, quote: bool)
    ensures EscapeHtml(s, quote) == EscapeCharwise(s, quote)
    decreases |s|
  {
    if |s| == 0 {
      assert EscapeHtml(s, quote) == "";
    } else {
      assert s == [s[0]] + s[1..];
      EscapeHtmlAppend([s[0]], s[1..], quote);
      EscapeHtmlOneChar(s[0], quote);
      EscapeHtmlIsCharwise(s[1..], quote);
    }
  }

  predicate HasSpecial(s: string, quote: bool) {
    '&' in s || '<' in s || '>' in s || (quote && ('"' in s || '\'' in s))
  }

  /** Text without any character to escape comes back unchanged. */
  lemma {:induction false} EscapeHtmlIdentity(s: string, quote: bool)
    requires !HasSpecial(s, quote)
    ensures EscapeHtml(s, quote) == s
    decreases |s|
  {
    EscapeHtmlIsCharwise(s, quote);
    CharwiseIdentity(s, quote);
  }

  lemma {:induction false} CharwiseIdentity(s: string, quote: bool)
    requires !HasSpecial(s, quote)
    ensures EscapeCharwise(s, quote) == s
    decreases |s|
  {
    if |s| > 0 {
      assert s[0] in s;
      assert EscapeChar(s[0], quote) == [s[0]];
      assert !HasSpecial(s[1..], quote) by {
        assert forall x :: x in s[1..] ==> x in s;
      }
      CharwiseIdentity(s[1..], quote);
      assert s == [s[0]] + s[1..];
    }
  }

  /** Decodes the five entities the escaper writes; any other text is kept as it is. */
  function UnescapeHtml(s: string): string
    decreases |s|
  {
    if |s| == 0 then ""
    else if StartsWith(s, "&amp;") then "&" + UnescapeHtml(s[5..])
    else if StartsWith(s, "&lt;") then "<" + UnescapeHtml(s[4..])
    else if StartsWith(s, "&gt;") then ">" + UnescapeHtml(s[4..])
    else if StartsWith(s, "&quot;") then "\"" + UnescapeHtml(s[6..])
    else if StartsWith(s, "&#x27;") then "'" + UnescapeHtml(s[6..])
    else [s[0]] + UnescapeHtml(s[1..])
  }

  /** An entity at the front of the text decodes to its character. */
  lemma UnescapeEntity(entity: string, c: char, rest: string)
    requires (entity, c) in {("&amp;", '&'), ("&lt;", '<'), ("&gt;", '>'), ("&quot;", '"'), ("&#x27;", '\'')}
    ensures UnescapeHtml(entity + rest) == [c] + UnescapeHtml(rest)
  {
    var t := entity + rest;
    assert t[..|entity|] == entity;
    assert t[|entity|..] == rest;
    assert t[1] == entity[1];
    if entity != "&amp;" {
      CharDiffers(t, "&amp;", 1);
    }
    if entity != "&amp;" && entity != "&lt;" {
      CharDiffers(t, "&lt;", 1);
    }
    if entity != "&amp;" && entity != "&lt;" && entity != "&gt;" {
      CharDiffers(t, "&gt;", 1);
    }
    if entity == "&#x27;" {
      CharDiffers(t, "&quot;", 1);
    }
  }

  /** A text that differs from a pattern at some position the pattern covers does not start with it. */
  lemma CharDiffers(t: string, pattern: string, k: nat)
    requires k < |t| && k < |pattern| && t[k] != pattern[k]
    ensures !StartsWith(t, pattern)
  {
    if |pattern| <= |t| {
      assert t[..|pattern|][k] == t[k];
    }
  }

  /** A character the escaper keeps decodes to itself. */
  lemma UnescapePlain(c: char, rest: string)
    requires c != '&'
    ensures UnescapeHtml([c] + rest) == [c] + UnescapeHtml(rest)
  {
    var t := [c] + rest;
    assert t[0] == c;
    assert t[1..] == rest;
    CharDiffers(t, "&amp;", 0);
    CharDiffers(t, "&lt;", 0);
    CharDiffers(t, "&gt;", 0);
    CharDiffers(t, "&quot;", 0);
    CharDiffers(t, "&#x27;", 0);
  }

  /** Decoding the text one character was escaped to gives that character back. */
  lemma UnescapeEscapedChar(c: char, quote: bool, rest: string)
    ensures UnescapeHtml(EscapeChar(c, quote) + rest) == [c] + UnescapeHtml(rest)
  {
    var e := EscapeChar(c, quote);
    if e == [c] {
      UnescapePlain(c, rest);
    } else {
      UnescapeEntity(e, c, rest);
    }
  }

  /** Escaping loses nothing: decoding the entities gives the original text back. */
  lemma {:induction false} UnescapeEscape(s: string, quote: bool)
    ensures UnescapeHtml(EscapeHtml(s, quote)) == s
  {
    EscapeHtmlIsCharwise(s, quote);
    UnescapeCharwise(s, quote);
  }

  lemma {:induction false} UnescapeCharwise(s: string, quote: bool)
    ensures UnescapeHtml(EscapeCharwise(s, quote)) == s
    decreases |s|
  {
    if |s| > 0 {
      UnescapeCharwise(s[1..], quote);
      UnescapeEscapedChar(s[0], quote, EscapeCharwise(s[1..], quote));
      assert s == [s[0]] + s[1..];
    }
  }

  // ---------------------------------------------------------------------------
  // Money
  // ---------------------------------------------------------------------------

  /** 10 to the number of characters of `str(m)` minus one: the power of ten of m's leading digit. */
  function DetermineScalingFactor(moneyEndowment: int): (r: nat)
    ensures r >= 1
  {
    Pow10(|IntToDecimal(moneyEndowment)| - 1)
  }

  /** For a positive amount the factor is the largest power of ten not above it; for zero it is 1. */
  lemma ScalingFactorBrackets(moneyEndowment: nat)
    ensures moneyEndowment == 0 ==> DetermineScalingFactor(moneyEndowment) == 1
    ensures moneyEndowment >= 1 ==>
      DetermineScalingFactor(moneyEndowment) <= moneyEndowment < 10 * DetermineScalingFactor(moneyEndowment)
  {
    DecimalLength(moneyEndowment);
  }

  /** The factor is a power of ten. */
  lemma ScalingFactorIsPowerOfTen(moneyEndowment: int)
    ensures exists k: nat :: DetermineScalingFactor(moneyEndowment) == Pow10(k)
  {
    var k := |IntToDecimal(moneyEndowment)| - 1;
    assert DetermineScalingFactor(moneyEndowment) == Pow10(k);
  }

  /** Every agent starts with the same amount; `[m] * n` is empty for n <= 0. */
  function GenerateMoneyEndowments(nbAgents: int, moneyEndowment: int): (r: seq<int>)
    ensures |r| == if nbAgents > 0 then nbAgents else 0
    ensures forall i :: 0 <= i < |r| ==> r[i] == moneyEndowment
  {
    if nbAgents <= 0 then [] else seq(nbAgents, _ => moneyEndowment)
  }

  /** The money in the game totals the number of agents times the endowment. */
  lemma MoneyEndowmentsTotal(nbAgents: nat, moneyEndowment: int)
    ensures Ledger.Sum(GenerateMoneyEndowments(nbAgents, moneyEndowment)) == nbAgents * moneyEndowment
  {
    if nbAgents > 0 {
      Ledger.SumConstant(nbAgents, moneyEndowment);
    }
  }

  // ---------------------------------------------------------------------------
  // Good keys and names
  // ---------------------------------------------------------------------------

  /** "tac_good_" followed by the good's index padded to the given width. */
  function GoodName(i: nat, width: nat): string {
    "tac_good_" + FormatPadded(i, width)
  }

  function GoodPbk(i: nat, width: nat): string {
    GoodName(i, width) + "_pbk"
  }

  /** Names of different goods differ. */
  lemma GoodPbkInjective(i: nat, j: nat, width: nat)
    requires GoodPbk(i, width) == GoodPbk(j, width)
    ensures i == j
  {
    var a, b := GoodPbk(i, width), GoodPbk(j, width);
    assert |FormatPadded(i, width)| == |FormatPadded(j, width)|;
    assert a[9..|a| - 4] == FormatPadded(i, width);
    assert b[9..|b| - 4] == FormatPadded(j, width);
    FormatPaddedInjective(i, j, width);
  }

  /** The table after inserting goods 0 .. count-1 in order, as the dictionary comprehension does. */
  function GoodTable(count: nat, width: nat): map<string, string>
    decreases count
  {
    if count == 0 then map[]
    else GoodTable(count - 1, width)[GoodPbk(count - 1, width) := GoodName(count - 1, width)]
  }

  /**
   * A table of the first `count` goods has one entry per good, maps each
   * good's key to its name, holds no other good's key, and every key is its
   * name followed by "_pbk".
   */
  lemma {:induction false} GoodTableShape(count: nat, width: nat)
    ensures |GoodTable(count, width)| == count
    ensures forall i: nat :: i < count ==>
      GoodPbk(i, width) in GoodTable(count, width) && GoodTable(count, width)[GoodPbk(i, width)] == GoodName(i, width)
    ensures forall i: nat :: i >= count ==> GoodPbk(i, width) !in GoodTable(count, width)
    ensures forall k :: k in GoodTable(count, width) ==> k == GoodTable(count, width)[k] + "_pbk"
    decreases count
  {
    if count > 0 {
      var t := GoodTable(count - 1, width);
      var key, name := GoodPbk(count - 1, width), GoodName(count - 1, width);
      GoodTableShape(count - 1, width);
      GoodPbksDistinct(width);
      assert key !in t;
      assert GoodTable(count, width) == t[key := name];
      assert key == name + "_pbk";
    }
  }

  /**
   * The key-to-name table for n goods: the key of good i is its name with
   * "_pbk" appended, and names are zero-padded to ceil(log10 n) digits.
   * There is no table for fewer than one good (the logarithm is undefined).
   */
  function GenerateGoodPbkToName(nbGoods: nat): (r: map<string, string>)
    requires nbGoods >= 1
    ensures |r| == nbGoods
    ensures forall k :: k in r ==> k == r[k] + "_pbk"
    ensures forall i: nat :: i < nbGoods ==>
      GoodPbk(i, CeilLog10(nbGoods)) in r && r[GoodPbk(i, CeilLog10(nbGoods))] == GoodName(i, CeilLog10(nbGoods))
  {
    GoodTableShape(nbGoods, CeilLog10(nbGoods));
    GoodTable(nbGoods, CeilLog10(nbGoods))
  }

  lemma GoodPbksDistinct(width: nat)
    ensures forall i: nat, j: nat :: GoodPbk(i, width) == GoodPbk(j, width) ==> i == j
  {
    forall i: nat, j: nat | GoodPbk(i, width) == GoodPbk(j, width)
      ensures i == j
    {
      GoodPbkInjective(i, j, width);
    }
  }

  /**
   * All names have the same length, so the padding is wide enough for the
   * largest index; each name reads back as its good's index.
   */
  lemma GoodNamesCommonWidth(nbGoods: nat, i: nat)
    requires nbGoods >= 1 && i < nbGoods
    ensures |GoodName(i, CeilLog10(nbGoods))| == 9 + (if CeilLog10(nbGoods) == 0 then 1 else CeilLog10(nbGoods))
    ensures AllDigits(GoodName(i, CeilLog10(nbGoods))[9..])
    ensures DecimalValue(GoodName(i, CeilLog10(nbGoods))[9..]) == i
  {
    var w := CeilLog10(nbGoods);
    PaddedWidthIsCommon(i, w);
    assert GoodName(i, w)[9..] == FormatPadded(i, w);
  }

  /** Ten goods are named tac_good_0 to tac_good_9; eleven need two digits. */
  lemma GoodNamesExample()
    ensures "tac_good_3_pbk" in GenerateGoodPbkToName(10)
    ensures GenerateGoodPbkToName(10)["tac_good_3_pbk"] == "tac_good_3"
    ensures "tac_good_03_pbk" in GenerateGoodPbkToName(11)
    ensures GenerateGoodPbkToName(11)["tac_good_03_pbk"] == "tac_good_03"
  {
    GoodThreeNames();
    assert CeilLog10(10) == 1;
    assert CeilLog10(11) == 2;
  }

  lemma GoodThreeNames()
    ensures GoodPbk(3, 1) == "tac_good_3_pbk" && GoodName(3, 1) == "tac_good_3"
    ensures GoodPbk(3, 2) == "tac_good_03_pbk" && GoodName(3, 2) == "tac_good_03"
  {
    assert FormatPadded(3, 1) == "3" by {
      assert NatToDecimal(3) == "3";
    }
    assert FormatPadded(3, 2) == "03" by {
      assert NatToDecimal(3) == "3";
      assert Zeros(1) == "0";
    }
    assert GoodName(3, 1) == "tac_good_" + "3";
    assert GoodName(3, 2) == "tac_good_" + "03";
  }

  // ---------------------------------------------------------------------------
  // Services dictionary
  // ---------------------------------------------------------------------------

  const TacSupplyDatamodelName: string := "tac_supply"
  const TacDemandDatamodelName: string := "tac_demand"

  /** The registration dictionary: a description and the goods; the order of the goods is immaterial. */
  datatype ServicesDict = ServicesDict(description: string, services: set<string>)

  function BuildDict(goodPbks: set<string>, isSupply: bool): (r: ServicesDict)
    ensures r.services == goodPbks
    ensures r.description == TacSupplyDatamodelName <==> isSupply
    ensures r.description in {TacSupplyDatamodelName, TacDemandDatamodelName}
  {
    ServicesDict(if isSupply then TacSupplyDatamodelName else TacDemandDatamodelName, goodPbks)
  }

  /** Whether a description announces supply; unknown descriptions announce nothing. */
  function IsSupplyDescription(description: string): Option<bool> {
    if description == TacSupplyDatamodelName then Some(true)
    else if description == TacDemandDatamodelName then Some(false)
    else None
  }

  /** The description alone tells a reader which side registered. */
  lemma BuildDictDescriptionRoundTrip(goodPbks: set<string>, isSupply: bool)
    ensures IsSupplyDescription(BuildDict(goodPbks, isSupply).description) == Some(isSupply)
  {
  }
}
