/**
 * The comment reviewer (src/reviewers/comment.rs): one trigger judged against
 * the text of a new comment.
 */
module CommentReviewers {
  import opened Wrappers
  import opened Reviewers
  import opened Events

  /** A comment trigger: literal or pattern `content`, optionally inverted. */
  datatype Trigger = Trigger(content: string, regex: bool, inverse: bool)

  /** A comment trigger as configured: `regex` and `inverse` may be left out. */
  datatype TriggerConfig = TriggerConfig(content: string, regex: Option<bool>, inverse: Option<bool>)

  /** Reading a configured trigger: an absent `regex` or `inverse` is false. */
  function TriggerFrom(c: TriggerConfig): (t: Trigger)
    ensures t.content == c.content
    ensures t.regex <==> c.regex == Some(true)
    ensures t.inverse <==> c.inverse == Some(true)
  {
    Trigger(c.content, c.regex.GetOr(false), c.inverse.GetOr(false))
  }

  /** `CommentReviewer::from` keeps the trigger as it is. */
  datatype CommentReviewer = CommentReviewer(trigger: Trigger)

  /**
   * `CommentReviewer::review`: match (literally or by pattern search), invert
   * if asked, then `Accept` on a match and `Noop` otherwise; a pattern that
   * does not compile is an error.
   */
  function Review(r: CommentReviewer, re: RegexEngine, e: IssueCommented): (res: Result<Answer, ReviewError>)
    ensures res.Failure? <==> r.trigger.regex && !re.compiles(r.trigger.content)
    ensures res.Failure? ==> res.error == InvalidPattern(r.trigger.content)
    ensures res.Success? ==> res.value == Accept || res.value == Noop
  {
    var t := r.trigger;
    if t.regex && !re.compiles(t.content) then
      Failure(InvalidPattern(t.content))
    else
      var ok := if t.regex then re.isMatch(t.content, e.content) else e.content == t.content;
      var ok' := if t.inverse then !ok else ok;
      Success(if ok' then Accept else Noop)
  }

  /** Literal, non-inverted: `Accept` exactly when the comment equals `content`, `Noop` otherwise. */
  lemma ReviewLiteral(content: string, re: RegexEngine, e: IssueCommented)
    ensures Review(CommentReviewer(Trigger(content, false, false)), re, e) == Success(Accept) <==> e.content == content
    ensures Review(CommentReviewer(Trigger(content, false, false)), re, e) == Success(Noop) <==> e.content != content
  {
  }

  /** A compiled pattern decides by the engine's search on the whole comment, then `inverse` applies. */
  lemma ReviewPattern(content: string, inverse: bool, re: RegexEngine, e: IssueCommented)
    requires re.compiles(content)
    ensures Review(CommentReviewer(Trigger(content, true, inverse)), re, e) ==
      Success(if re.isMatch(content, e.content) != inverse then Accept else Noop)
  {
  }

  /** Flipping `inverse` swaps `Accept` and `Noop` and leaves a compile error untouched. */
  lemma ReviewInverse(t: Trigger, re: RegexEngine, e: IssueCommented)
    ensures Review(CommentReviewer(t.(inverse := !t.inverse)), re, e) ==
      match Review(CommentReviewer(t), re, e)
      case Success(a) => Success(if a == Accept then Noop else Accept)
      case Failure(err) => Failure(err)
  {
  }

  /** The comment reviewer decides exactly as `TextMatch::matches` on the same rule would. */
  lemma ReviewIsTextMatch(t: Trigger, re: RegexEngine, e: IssueCommented)
    ensures Review(CommentReviewer(t), re, e) ==
      match Matches(TextMatch(t.content, t.regex, t.inverse), re, e.content)
      case Success(b) => Success(if b then Accept else Noop)
      case Failure(err) => Failure(err)
  {
  }
}
