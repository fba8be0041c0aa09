/** The "are the branches up to date?" confirmation that opens a run. */
module Confirm {

  /** The default answer of the confirmation question (line 41). */
  const DefaultAnswer: string := "Y"

  /** `answer || defaultAnswer` (line 31): an empty reply is falsy and gives way to the default. */
  function Answer(reply: string, default: string): (a: string)
    ensures reply == "" ==> a == default
    ensures reply != "" ==> a == reply
  {
    if reply == "" then default else reply
  }

  /** The run goes on only for an answer of exactly `y` or `Y` (line 43). */
  predicate Proceeds(answer: string)
    ensures Proceeds(answer) ==> |answer| == 1
  {
    answer == "y" || answer == "Y"
  }

  /**
   * With the default `Y`, the run goes on exactly for an empty reply, `y`
   * or `Y`; every other reply ends it (`yes` included).
   */
  lemma ConfirmationRule(reply: string)
    ensures Proceeds(Answer(reply, DefaultAnswer)) <==> reply == "" || reply == "y" || reply == "Y"
    ensures !Proceeds(Answer("yes", DefaultAnswer))
  {
    assert "yes" != "y" && "yes" != "Y";
  }

  /** The answer comes out as the default exactly when the reply is empty or is the default itself. */
  lemma AnswerDefaulting(reply: string, default: string)
    ensures Answer(reply, default) == default <==> reply == "" || reply == default
  {
  }
}
