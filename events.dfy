/**
 * The event adapter (src/events.rs): a webhook payload becomes one of the two
 * event kinds the reviewers understand, carrying the text they judge.
 */
module Events {
  import opened Wrappers

  /** The part of an issue-comment payload the model needs. */
  datatype IssueCommentEventPayload = IssueCommentEventPayload(commentBody: Option<string>, issueNumber: nat)

  /** The part of a pull-request payload the model needs; `action` is e.g. "edited" or "synchronize". */
  datatype PullRequestEventPayload = PullRequestEventPayload(action: string, body: Option<string>, number: nat)

  /** A webhook payload; every kind other than the two above is `OtherPayload`. */
  datatype EventPayload =
    | IssueCommentEvent(comment: IssueCommentEventPayload)
    | PullRequestEvent(pullRequest: PullRequestEventPayload)
    | OtherPayload(kind: string)

  datatype IssueCommented = IssueCommented(content: string)

  datatype DescriptionEdited = DescriptionEdited(content: string)

  /** `Event::IssueCommented` and `Event::DescriptionEdited`. */
  datatype Event = Commented(commented: IssueCommented) | Edited(edited: DescriptionEdited)

  const UnknownPayloadMessage: string := "Unknown payload found"

  /** `From<IssueCommentEventPayload>`: the comment body, empty when absent. */
  function IssueCommentedFrom(p: IssueCommentEventPayload): (e: IssueCommented)
    ensures p.commentBody.Some? ==> e.content == p.commentBody.value
    ensures p.commentBody.None? ==> e.content == ""
  {
    IssueCommented(p.commentBody.GetOr(""))
  }

  /** `From<PullRequestEventPayload>`: the pull request's body, empty when absent. */
  function DescriptionEditedFrom(p: PullRequestEventPayload): (e: DescriptionEdited)
    ensures p.body.Some? ==> e.content == p.body.value
    ensures p.body.None? ==> e.content == ""
  {
    DescriptionEdited(p.body.GetOr(""))
  }

  /** `Event::try_from`: comment payloads become comment events, pull-request payloads description events. */
  function EventFrom(p: EventPayload): (r: Result<Event, string>)
    ensures r.Failure? <==> p.OtherPayload?
    ensures r.Failure? ==> r.error == UnknownPayloadMessage
    ensures r.Success? ==> (r.value.Commented? <==> p.IssueCommentEvent?)
  {
    match p
    case IssueCommentEvent(c) => Success(Commented(IssueCommentedFrom(c)))
    case PullRequestEvent(pr) => Success(Edited(DescriptionEditedFrom(pr)))
    case OtherPayload(_) => Failure(UnknownPayloadMessage)
  }

  /** The text an event carries. */
  function Text(e: Event): string {
    match e
    case Commented(c) => c.content
    case Edited(d) => d.content
  }

  /** The body a known payload carries, if any. */
  function Body(p: EventPayload): Option<string>
    requires !p.OtherPayload?
  {
    match p
    case IssueCommentEvent(c) => c.commentBody
    case PullRequestEvent(pr) => pr.body
  }

  /**
   * A known payload always yields an event, whose text is the payload's body,
   * or the empty string when the body is missing: absence is never an error.
   */
  lemma EventFromText(p: EventPayload)
    requires !p.OtherPayload?
    ensures EventFrom(p).Success?
    ensures Text(EventFrom(p).value) == Body(p).GetOr("")
  {
  }

  /** Pull-request payloads are accepted whatever their action; the action plays no part. */
  lemma PullRequestActionIgnored(pr: PullRequestEventPayload, action: string)
    ensures EventFrom(PullRequestEvent(pr.(action := action))) == EventFrom(PullRequestEvent(pr))
    ensures EventFrom(PullRequestEvent(pr)).Success?
  {
  }
}
