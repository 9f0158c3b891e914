/**
 * `parse_agent_selection`: the next speaker is chosen by a language model,
 * and its free-text answer is mapped onto one of the three agent names by
 * fixed substring tests on the stripped, upper-cased answer.
 */
module Selection {
  import opened PyStrings
  import opened Chat

  /** The three names the parser can return. */
  predicate IsAgentName(name: string) {
    name == SoftwareEngineer || name == ProductOwner || name == BusinessAnalyst
  }

  /**
   * `parse_agent_selection(result)`. It is total and always names an agent:
   * the engineer whenever "ENGINEER" appears (even beside "PRODUCTOWNER"),
   * else the product owner when "PRODUCTOWNER" appears, else the analyst.
   */
  function ParseAgentSelection(result: string): (name: string)
    ensures IsAgentName(name)
    ensures name == SoftwareEngineer <==> Contains(Upper(Strip(result)), "ENGINEER")
    ensures name == ProductOwner <==>
      !Contains(Upper(Strip(result)), "ENGINEER") && Contains(Upper(Strip(result)), "PRODUCTOWNER")
    ensures name == BusinessAnalyst <==>
      !Contains(Upper(Strip(result)), "ENGINEER") && !Contains(Upper(Strip(result)), "PRODUCTOWNER")
  {
    var resultStr := Upper(Strip(result));
    if Contains(resultStr, "SOFTWAREENGINEER") then
      assert Contains(resultStr, "ENGINEER") by { EngineerInSoftwareEngineer(resultStr); }
      SoftwareEngineer
    else if Contains(resultStr, "ENGINEER") then SoftwareEngineer
    else if Contains(resultStr, "PRODUCTOWNER") then ProductOwner
    else BusinessAnalyst
  }

  /** The first test is subsumed by the second: "SOFTWAREENGINEER" contains "ENGINEER". */
  lemma EngineerInSoftwareEngineer(s: string)
    requires Contains(s, "SOFTWAREENGINEER")
    ensures Contains(s, "ENGINEER")
  {
    assert OccursAt("SOFTWAREENGINEER", "ENGINEER", 8);
    ContainsTransitive(s, "SOFTWAREENGINEER", "ENGINEER");
  }

  /** White space around the model's answer never changes the choice. */
  lemma SelectionIgnoresStrip(result: string)
    ensures ParseAgentSelection(result) == SoftwareEngineer <==> Contains(Upper(result), "ENGINEER")
    ensures ParseAgentSelection(result) == ProductOwner <==>
      !Contains(Upper(result), "ENGINEER") && Contains(Upper(result), "PRODUCTOWNER")
  {
    StripKeepsPattern(result, "ENGINEER");
    StripKeepsPattern(result, "PRODUCTOWNER");
  }
}
