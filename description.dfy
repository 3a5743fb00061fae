/**
 * The description reviewer (src/reviewers/description.rs): one trigger judged
 * against a pull request's description through `TextMatch::matches`.
 */
module DescriptionReviewers {
  import opened Wrappers
  import opened Reviewers
  import opened Events

  /** A description trigger is a flattened `TextMatch`. */
  datatype Trigger = Trigger(text: TextMatch)

  /** A description trigger as configured: `regex` and `inverse` may be left out. */
  datatype TriggerConfig = TriggerConfig(content: string, regex: Option<bool>, inverse: Option<bool>)

  /** Reading a configured trigger: an absent `regex` or `inverse` is false. */
  function TriggerFrom(c: TriggerConfig): (t: Trigger)
    ensures t.text.content == c.content
    ensures t.text.regex <==> c.regex == Some(true)
    ensures t.text.inverse <==> c.inverse == Some(true)
  {
    Trigger(TextMatch(c.content, c.regex.GetOr(false), c.inverse.GetOr(false)))
  }

  /** `DescriptionReviewer::from` keeps the trigger as it is. */
  datatype DescriptionReviewer = DescriptionReviewer(trigger: Trigger)

  /**
   * `DescriptionReviewer::review`: `Accept` when the rule matches, `Noop` when
   * it does not, and the rule's error passed on unchanged.
   */
  function Review(r: DescriptionReviewer, re: RegexEngine, e: DescriptionEdited): (res: Result<Answer, ReviewError>)
    ensures res == Success(Accept) <==> Matches(r.trigger.text, re, e.content) == Success(true)
    ensures res == Success(Noop) <==> Matches(r.trigger.text, re, e.content) == Success(false)
    ensures res.Failure? <==> Matches(r.trigger.text, re, e.content).Failure?
    ensures res.Failure? ==> res.error == Matches(r.trigger.text, re, e.content).error
    ensures res.Success? ==> res.value == Accept || res.value == Noop
  {
    match Matches(r.trigger.text, re, e.content)
    case Failure(err) => Failure(err)
    case Success(b) => Success(if b then Accept else Noop)
  }
}
