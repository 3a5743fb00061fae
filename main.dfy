/**
 * The run (src/main.rs): reviewers are built from the configured triggers,
 * the event is judged by the reviewers of its kind, the verdicts are folded
 * with `choose` from the configured default, and the final verdict decides
 * which review, if any, is submitted and where.
 */
module Automan {
  import opened Wrappers
  import opened Reviewers
  import opened Events
  import CommentReviewers
  import DescriptionReviewers

  /** The configured triggers per event kind; either list may be absent. */
  datatype Triggers = Triggers(
    comment: Option<seq<CommentReviewers.Trigger>>,
    description: Option<seq<DescriptionReviewers.Trigger>>)

  /** The configuration: triggers, the body of a submitted review, and the seed verdict. */
  datatype Config = Config(triggers: Triggers, comment: string, default: Answer)

  datatype EventReviewers = EventReviewers(
    comment: seq<CommentReviewers.CommentReviewer>,
    description: seq<DescriptionReviewers.DescriptionReviewer>)

  /** One comment reviewer per trigger, in trigger order. */
  function CommentReviewersFrom(ts: seq<CommentReviewers.Trigger>): (rs: seq<CommentReviewers.CommentReviewer>)
    ensures |rs| == |ts|
    ensures forall i :: 0 <= i < |ts| ==> rs[i].trigger == ts[i]
    decreases |ts|
  {
    if ts == [] then [] else [CommentReviewers.CommentReviewer(ts[0])] + CommentReviewersFrom(ts[1..])
  }

  /** One description reviewer per trigger, in trigger order. */
  function DescriptionReviewersFrom(ts: seq<DescriptionReviewers.Trigger>): (rs: seq<DescriptionReviewers.DescriptionReviewer>)
    ensures |rs| == |ts|
    ensures forall i :: 0 <= i < |ts| ==> rs[i].trigger == ts[i]
    decreases |ts|
  {
    if ts == [] then [] else [DescriptionReviewers.DescriptionReviewer(ts[0])] + DescriptionReviewersFrom(ts[1..])
  }

  /** `EventReviewers::from`: a missing trigger list gives no reviewers. */
  function EventReviewersFrom(t: Triggers): (r: EventReviewers)
    ensures t.comment.None? ==> r.comment == []
    ensures t.description.None? ==> r.description == []
    ensures t.comment.Some? ==>
      (|r.comment| == |t.comment.value| &&
       forall i :: 0 <= i < |r.comment| ==> r.comment[i].trigger == t.comment.value[i])
    ensures t.description.Some? ==>
      (|r.description| == |t.description.value| &&
       forall i :: 0 <= i < |r.description| ==> r.description[i].trigger == t.description.value[i])
  {
    EventReviewers(
      CommentReviewersFrom(t.comment.GetOr([])),
      DescriptionReviewersFrom(t.description.GetOr([])))
  }

  /**
   * `try_fold(default, fold(e))`: each reviewer's verdict is combined into the
   * accumulator with `choose`, in list order; the first error ends the fold.
   */
  function TryFold<R>(acc: Answer, rs: seq<R>, review: R -> Result<Answer, ReviewError>): (r: Result<Answer, ReviewError>)
    ensures r.Success? ==> r.value == acc || exists x :: x in rs && review(x) == Success(r.value)
    ensures r.Failure? ==> exists x :: x in rs && review(x) == Failure(r.error)
    decreases |rs|
  {
    if rs == [] then
      Success(acc)
    else
      match review(rs[0])
      case Failure(e) => Failure(e)
      case Success(a) => TryFold(Choose(acc, a), rs[1..], review)
  }

  /** The fold as the accumulator loop it is, with the early exit on error. */
  method Aggregate<R>(default: Answer, rs: seq<R>, review: R -> Result<Answer, ReviewError>)
    returns (r: Result<Answer, ReviewError>)
    ensures r == TryFold(default, rs, review)
  {
    var acc := default;
    var i := 0;
    while i < |rs|
      invariant 0 <= i <= |rs|
      invariant TryFold(default, rs, review) == TryFold(acc, rs[i..], review)
    {
      var verdict := review(rs[i]);
      if verdict.Failure? {
        return Failure(verdict.error);
      }
      assert rs[i..][1..] == rs[i + 1..];
      acc := Choose(acc, verdict.value);
      i := i + 1;
    }
    return Success(acc);
  }

  /** The verdicts of reviewers that all succeed, in list order. */
  function Verdicts<R>(rs: seq<R>, review: R -> Result<Answer, ReviewError>): (vs: seq<Answer>)
    requires forall i :: 0 <= i < |rs| ==> review(rs[i]).Success?
    ensures |vs| == |rs|
    ensures forall i :: 0 <= i < |rs| ==> review(rs[i]) == Success(vs[i])
    decreases |rs|
  {
    if rs == [] then [] else [review(rs[0]).value] + Verdicts(rs[1..], review)
  }

  /** The fold succeeds exactly when every reviewer succeeds. */
  lemma {:induction false} TryFoldSucceeds<R>(acc: Answer, rs: seq<R>, review: R -> Result<Answer, ReviewError>)
    ensures TryFold(acc, rs, review).Success? <==> forall i :: 0 <= i < |rs| ==> review(rs[i]).Success?
    decreases |rs|
  {
    if rs != [] {
      if review(rs[0]).Success? {
        TryFoldSucceeds(Choose(acc, review(rs[0]).value), rs[1..], review);
        assert forall i :: 1 <= i < |rs| ==> rs[i] == rs[1..][i - 1];
      }
    }
  }

  /** A successful fold is `choose` folded left over the seed and each verdict, in list order. */
  lemma {:induction false} TryFoldValue<R>(acc: Answer, rs: seq<R>, review: R -> Result<Answer, ReviewError>)
    requires forall i :: 0 <= i < |rs| ==> review(rs[i]).Success?
    ensures TryFold(acc, rs, review) == Success(ChooseAll(acc, Verdicts(rs, review)))
    decreases |rs|
  {
    if rs != [] {
      TryFoldValue(Choose(acc, review(rs[0]).value), rs[1..], review);
    }
  }

  /** Folding no reviewers gives the seed unchanged. */
  lemma TryFoldEmpty<R>(acc: Answer, review: R -> Result<Answer, ReviewError>)
    ensures TryFold(acc, [], review) == Success(acc)
  {
  }

  /**
   * The first reviewer that errors ends the fold with its error: whatever
   * follows it is never consulted.
   */
  lemma {:induction false} TryFoldFirstError<R>(acc: Answer, rs: seq<R>, review: R -> Result<Answer, ReviewError>, k: nat)
    requires k < |rs|
    requires review(rs[k]).Failure?
    requires forall j :: 0 <= j < k ==> review(rs[j]).Success?
    ensures TryFold(acc, rs, review) == Failure(review(rs[k]).error)
    decreases k
  {
    if k > 0 {
      TryFoldFirstError(Choose(acc, review(rs[0]).value), rs[1..], review, k - 1);
    }
  }

  /**
   * The order of the reviewers does not matter to a successful fold: two
   * lists with the same members both succeed, with the same verdict.
   */
  lemma TryFoldOrderIndependent<R>(acc: Answer, rs: seq<R>, ss: seq<R>, review: R -> Result<Answer, ReviewError>)
    requires forall r :: r in rs <==> r in ss
    requires TryFold(acc, rs, review).Success?
    ensures TryFold(acc, ss, review) == TryFold(acc, rs, review)
  {
    TryFoldSucceeds(acc, rs, review);
    TryFoldSucceeds(acc, ss, review);
    assert forall j :: 0 <= j < |ss| ==> review(ss[j]).Success? by {
      forall j | 0 <= j < |ss| ensures review(ss[j]).Success? {
        assert ss[j] in rs;
        var i :| 0 <= i < |rs| && rs[i] == ss[j];
      }
    }
    var vr, vs := Verdicts(rs, review), Verdicts(ss, review);
    forall x
      ensures x in vr <==> x in vs
    {
      if x in vr {
        var i :| 0 <= i < |vr| && vr[i] == x;
        assert rs[i] in ss;
        var j :| 0 <= j < |ss| && ss[j] == rs[i];
        assert vs[j] == x;
      }
      if x in vs {
        var j :| 0 <= j < |vs| && vs[j] == x;
        assert ss[j] in rs;
        var i :| 0 <= i < |rs| && rs[i] == ss[j];
        assert vr[i] == x;
      }
    }
    ChooseAllOrderIndependent(acc, vr, vs);
    TryFoldValue(acc, rs, review);
    TryFoldValue(acc, ss, review);
  }

  /** A non-`Reject` seed and reviewers that never reject cannot fold to `Reject`. */
  lemma {:induction false} TryFoldNoReject<R>(acc: Answer, rs: seq<R>, review: R -> Result<Answer, ReviewError>)
    requires acc != Reject
    requires forall i :: 0 <= i < |rs| ==> review(rs[i]) != Success(Reject)
    ensures TryFold(acc, rs, review) != Success(Reject)
    decreases |rs|
  {
    if rs != [] && review(rs[0]).Success? {
      assert review(rs[0]) != Success(Reject);
      TryFoldNoReject(Choose(acc, review(rs[0]).value), rs[1..], review);
    }
  }

  /** The answer for one event: comment events by comment reviewers, description events by description reviewers. */
  function Judge(re: RegexEngine, reviewers: EventReviewers, default: Answer, e: Event): Result<Answer, ReviewError> {
    match e
    case Commented(c) =>
      TryFold(default, reviewers.comment, (r: CommentReviewers.CommentReviewer) => CommentReviewers.Review(r, re, c))
    case Edited(d) =>
      TryFold(default, reviewers.description, (r: DescriptionReviewers.DescriptionReviewer) => DescriptionReviewers.Review(r, re, d))
  }

  /** Each event kind is judged only by the reviewers built for that kind. */
  lemma JudgeByKind(re: RegexEngine, reviewers: EventReviewers, default: Answer, e: Event,
                    cs: seq<CommentReviewers.CommentReviewer>, ds: seq<DescriptionReviewers.DescriptionReviewer>)
    ensures e.Commented? ==> Judge(re, reviewers.(description := ds), default, e) == Judge(re, reviewers, default, e)
    ensures e.Edited? ==> Judge(re, reviewers.(comment := cs), default, e) == Judge(re, reviewers, default, e)
  {
  }

  /** No reviewers for the event's kind: the answer is the configured default. */
  lemma JudgeNoReviewers(re: RegexEngine, reviewers: EventReviewers, default: Answer, e: Event)
    requires e.Commented? ==> reviewers.comment == []
    requires e.Edited? ==> reviewers.description == []
    ensures Judge(re, reviewers, default, e) == Success(default)
  {
  }

  /** A description event with a non-`Reject` default is never answered `Reject`. */
  lemma JudgeDescriptionNeverRejects(re: RegexEngine, reviewers: EventReviewers, default: Answer, d: DescriptionEdited)
    requires default != Reject
    ensures Judge(re, reviewers, default, Edited(d)) != Success(Reject)
  {
    var review := (r: DescriptionReviewers.DescriptionReviewer) => DescriptionReviewers.Review(r, re, d);
    TryFoldNoReject(default, reviewers.description, review);
  }

  /**
   * A comment event with a non-`Reject` default is never answered `Reject`
   * either: `Reject` is reachable only through the configured default.
   */
  lemma JudgeCommentNeverRejects(re: RegexEngine, reviewers: EventReviewers, default: Answer, c: IssueCommented)
    requires default != Reject
    ensures Judge(re, reviewers, default, Commented(c)) != Success(Reject)
  {
    var review := (r: CommentReviewers.CommentReviewer) => CommentReviewers.Review(r, re, c);
    TryFoldNoReject(default, reviewers.comment, review);
  }

  /** The kind of review submitted (src/github.rs:106-110). */
  datatype PullRequestReviewEvent = Approve | Comment | RequestChanges

  /** The answer's review: approve, request changes, or none at all. */
  function ReviewEventFor(a: Answer): (r: Option<PullRequestReviewEvent>)
    ensures r == Some(Approve) <==> a == Accept || a == ForceAccept
    ensures r == Some(RequestChanges) <==> a == Reject
    ensures r == None <==> a == Noop
    ensures r != Some(Comment)
  {
    match a
    case Accept => Some(Approve)
    case ForceAccept => Some(Approve)
    case Reject => Some(RequestChanges)
    case Noop => None
  }

  /** `str::split("/")`: the segments between slashes, always at least one. */
  function Split(s: string): (r: seq<string>)
    ensures |r| >= 1
    decreases |s|
  {
    if s == [] then
      [""]
    else
      var rest := Split(s[1..]);
      if s[0] == '/' then [""] + rest else [[s[0]] + rest[0]] + rest[1..]
  }

  /** `repository.split("/").last().unwrap_or_default()`. */
  function RepoName(repository: string): string {
    var segments := Split(repository);
    segments[|segments| - 1]
  }

  /**
   * The repository name is what follows the last slash: it holds no slash,
   * ends the repository string, and is either all of it or preceded by a slash.
   */
  lemma {:induction false} RepoNameIsLastSegment(s: string)
    ensures '/' !in RepoName(s)
    ensures |RepoName(s)| <= |s| && s[|s| - |RepoName(s)|..] == RepoName(s)
    ensures '/' !in s ==> RepoName(s) == s
    ensures '/' in s ==> |RepoName(s)| < |s| && s[|s| - |RepoName(s)| - 1] == '/'
    ensures |Split(s)| == 1 <==> '/' !in s
    ensures |Split(s)| == 1 ==> Split(s)[0] == s
    decreases |s|
  {
    if s != [] {
      var t := s[1..];
      RepoNameIsLastSegment(t);
      assert s == [s[0]] + t;
      assert '/' in s <==> s[0] == '/' || '/' in t;
      var rest := Split(t);
      if s[0] == '/' {
        assert Split(s) == [""] + rest;
      } else {
        assert Split(s) == [[s[0]] + rest[0]] + rest[1..];
      }
    }
  }

  /** The pull-request number a payload carries, if it is of a known kind. */
  function PullNumber(p: EventPayload): (n: Option<nat>)
    ensures n.None? <==> p.OtherPayload?
    ensures p.IssueCommentEvent? ==> n == Some(p.comment.issueNumber)
    ensures p.PullRequestEvent? ==> n == Some(p.pullRequest.number)
  {
    match p
    case IssueCommentEvent(c) => Some(c.issueNumber)
    case PullRequestEvent(pr) => Some(pr.number)
    case OtherPayload(_) => None
  }

  /** What the run reads from the workflow context. */
  datatype Context = Context(repository: string, repositoryOwner: string, sha: string, event: EventPayload)

  /** The review to submit (`repos/{owner}/{repo}/pulls/{pullNumber}/reviews`). */
  datatype ReviewRequest = ReviewRequest(
    owner: string, repo: string, pullNumber: nat,
    event: PullRequestReviewEvent, body: Option<string>, commitId: Option<string>)

  datatype RunError = PayloadError(message: string) | ReviewFailed(error: ReviewError)

  /**
   * `main` between loading its inputs and sending: the review to submit, none
   * when the answer is `Noop`, or the error that ends the run.
   */
  function Run(re: RegexEngine, config: Config, ctx: Context): Result<Option<ReviewRequest>, RunError> {
    var reviewers := EventReviewersFrom(config.triggers);
    match EventFrom(ctx.event)
    case Failure(msg) => Failure(PayloadError(msg))
    case Success(e) =>
      match Judge(re, reviewers, config.default, e)
      case Failure(err) => Failure(ReviewFailed(err))
      case Success(answer) =>
        match ReviewEventFor(answer)
        case None => Success(None)
        case Some(event) =>
          Success(Some(ReviewRequest(
            ctx.repositoryOwner, RepoName(ctx.repository), PullNumber(ctx.event).GetOr(0),
            event, Some(config.comment), Some(ctx.sha))))
  }

  /**
   * A submitted review goes to the payload's own pull request in the context's
   * repository, at the context's commit, with the configured body; it approves
   * exactly on `Accept`/`ForceAccept`, requests changes exactly on `Reject`,
   * and is never a plain comment. A reviewer's error ends the run with that
   * error, a `Noop` answer ends it with nothing submitted, and any other
   * answer submits a review.
   */
  lemma RunRequest(re: RegexEngine, config: Config, ctx: Context)
    ensures Run(re, config, ctx).Success? ==> !ctx.event.OtherPayload?
    ensures ctx.event.OtherPayload? ==> Run(re, config, ctx) == Failure(PayloadError(UnknownPayloadMessage))
    ensures Run(re, config, ctx).Success? && Run(re, config, ctx).value.Some? ==>
      var req := Run(re, config, ctx).value.value;
      && PullNumber(ctx.event) == Some(req.pullNumber)
      && req.owner == ctx.repositoryOwner
      && req.repo == RepoName(ctx.repository)
      && req.body == Some(config.comment)
      && req.commitId == Some(ctx.sha)
      && var answer := Judge(re, EventReviewersFrom(config.triggers), config.default, EventFrom(ctx.event).value);
      && (req.event == Approve <==> answer == Success(Accept) || answer == Success(ForceAccept))
      && (req.event == RequestChanges <==> answer == Success(Reject))
      && req.event != Comment
    ensures !ctx.event.OtherPayload? ==>
      var answer := Judge(re, EventReviewersFrom(config.triggers), config.default, EventFrom(ctx.event).value);
      && (answer.Failure? ==> Run(re, config, ctx) == Failure(ReviewFailed(answer.error)))
      && (answer == Success(Noop) <==> Run(re, config, ctx) == Success(None))
      && (answer.Success? && answer.value != Noop ==>
            Run(re, config, ctx).Success? && Run(re, config, ctx).value.Some?)
  {
  }

  /** A run on a pull-request payload with a non-`Reject` default never requests changes. */
  lemma RunDescriptionNeverRequestsChanges(re: RegexEngine, config: Config, ctx: Context)
    requires ctx.event.PullRequestEvent?
    requires config.default != Reject
    ensures Run(re, config, ctx).Success? && Run(re, config, ctx).value.Some? ==>
      Run(re, config, ctx).value.value.event == Approve
  {
    var e := EventFrom(ctx.event).value;
    JudgeDescriptionNeverRejects(re, EventReviewersFrom(config.triggers), config.default, e.edited);
  }

  /** A run with no triggers for the event's kind answers the default; a `Noop` default submits nothing. */
  lemma RunNoTriggers(re: RegexEngine, config: Config, ctx: Context)
    requires ctx.event.IssueCommentEvent? ==> config.triggers.comment.GetOr([]) == []
    requires ctx.event.PullRequestEvent? ==> config.triggers.description.GetOr([]) == []
    requires config.default == Noop
    ensures !ctx.event.OtherPayload? ==> Run(re, config, ctx) == Success(None)
  {
  }

  /** A "/approve" comment against a literal "/approve" trigger, default `Noop`, is approved. */
  lemma RunApproveComment(re: RegexEngine, owner: string, sha: string, number: nat)
    ensures Run(re,
      Config(Triggers(Some([CommentReviewers.Trigger("/approve", false, false)]), None), "ok", Noop),
      Context("octo/widgets", owner, sha, IssueCommentEvent(IssueCommentEventPayload(Some("/approve"), number))))
      == Success(Some(ReviewRequest(owner, "widgets", number, Approve, Some("ok"), Some(sha))))
  {
    var trigger := CommentReviewers.Trigger("/approve", false, false);
    var config := Config(Triggers(Some([trigger]), None), "ok", Noop);
    var reviewers := EventReviewersFrom(config.triggers);
    assert reviewers.comment == [CommentReviewers.CommentReviewer(trigger)];
    var e := IssueCommented("/approve");
    var review := (r: CommentReviewers.CommentReviewer) => CommentReviewers.Review(r, re, e);
    assert review(reviewers.comment[0]) == Success(Accept);
    assert reviewers.comment[1..] == [];
    assert TryFold(Noop, reviewers.comment, review) == Success(Accept);
    assert "octo/widgets" == "octo" + "/" + "widgets";
    RepoNameOfOwnerSlashRepo("octo", "widgets");
    assert RepoName("octo/widgets") == "widgets";
  }

  /** For "owner/repo" with a slash-free repo, the name is the repo part. */
  lemma RepoNameOfOwnerSlashRepo(owner: string, repo: string)
    requires '/' !in repo
    ensures RepoName(owner + "/" + repo) == repo
  {
    var s := owner + "/" + repo;
    RepoNameIsLastSegment(s);
    var r := RepoName(s);
    var k := |s| - |r| - 1;
    assert s[|owner|] == '/';
    assert k == |owner|;
    assert r == s[|owner| + 1..];
    assert s[|owner| + 1..] == repo;
  }

  /** An inverted literal "ship-it" trigger accepts any other comment and ignores "ship-it" itself. */
  lemma InvertedTrigger(re: RegexEngine)
    ensures Judge(re, EventReviewers([CommentReviewers.CommentReviewer(CommentReviewers.Trigger("ship-it", false, true))], []),
      Noop, Commented(IssueCommented("nope"))) == Success(Accept)
    ensures Judge(re, EventReviewers([CommentReviewers.CommentReviewer(CommentReviewers.Trigger("ship-it", false, true))], []),
      Noop, Commented(IssueCommented("ship-it"))) == Success(Noop)
  {
  }
}
