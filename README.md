# automan decision engine, modelled in Dafny

automan is a GitHub Action that reviews pull requests. Each run handles one
repository event: a new issue/PR comment or a pull-request update. The
configured triggers for that event's kind each give a verdict (`Answer`), and
`Answer::choose` folds those verdicts into one, starting from the configured
default. The final verdict decides whether the bot approves, requests changes
or does nothing. This project models that decision engine and proves its
properties:

- `wrappers.dfy` (`Wrappers`): `Option` and `Result`.
- `reviewers_mod.dfy` (`Reviewers`, src/reviewers/mod.rs): the four-level
  `Answer` with its derived order, `choose`, and `ChooseAll` (`choose` folded
  over a sequence). It also holds the `TextMatch` rule and the regex engine
  given as a parameter.
- `comment.rs` and `description.rs` map to `comment.dfy` (`CommentReviewers`)
  and `description.dfy` (`DescriptionReviewers`): the two trigger types, how
  they are read from configuration, and their `review`.
- `events.dfy` (`Events`, src/events.rs): payload kinds, the two event kinds,
  and `Event::try_from`.
- `main.dfy` (`Automan`, src/main.rs): `EventReviewers::from` and the
  `try_fold` dispatch. The fold is both a specification function (`TryFold`)
  and the loop that computes it (`Aggregate`). The module also has the
  verdict-to-review mapping, the repository name and pull number, and `Run`.
  `Run` is `main` minus its I/O: it returns the review request that would be
  sent, or none, or the error that ends the run.

The central result: under the precedence `Noop < Accept < Reject <
ForceAccept`, `choose` is exactly `max` (`ChooseIsPrecedenceMax`). So it is
commutative, associative and idempotent, `Noop` is its identity and
`ForceAccept` absorbs everything. A fold depends only on which verdicts
occur, not on their order (`ChooseAllOrderIndependent`,
`TryFoldOrderIndependent`).

Facts about the code that the model keeps:

- `Answer` has exactly four variants: `Noop`, `Reject`, `Accept` and
  `ForceAccept`.
- `Config.default` has no serde default, so it is a required field. It may be
  any of the four verdicts, `Reject` included. No reviewer returns `Reject`,
  so `Reject` comes into a run only through this default
  (`JudgeCommentNeverRejects`, `JudgeDescriptionNeverRejects`).
- A missing pull number becomes 0 through `unwrap_or_default`
  (src/main.rs:100). `Run` never reaches that case: every payload without a
  number has already failed in `Event::try_from`.

At this revision the repository's files do not fit together. src/reviewers/mod.rs does not
declare `description`. It does not define `TextMatch`, and it does not derive
`Deserialize` for `Answer`. Yet the other files use all three. The model
therefore defines `TextMatch` with the semantics that comment.rs spells out
inline. It takes `regex` and `inverse` to default to false, as they do on the
comment trigger.

The regex engine is uninterpreted. `RegexEngine` is a parameter made of two
parts: whether a pattern compiles, and whether a compiled pattern matches
anywhere in a text (`is_match`).

## Model

| member | source | states |
|---|---|---|
| Reviewers.DerivedOrder | src/reviewers/mod.rs:5-11 | the derived order is declaration/discriminant order Noop < Reject < Accept < ForceAccept, and it is a strict total order |
| Reviewers.Max | src/reviewers/mod.rs:20 | `Ord::max` returns one of its arguments, and that argument is at least as large as both |
| Reviewers.Choose | src/reviewers/mod.rs:14-22 | the result is one of the two arguments; it is `Reject` exactly when one side is `Reject` and neither side is `ForceAccept` |
| Reviewers.ChooseIsPrecedenceMax | src/reviewers/mod.rs:17-21 | `choose` is the maximum under the precedence Noop < Accept < Reject < ForceAccept |
| Reviewers.PrecedenceInjective | src/reviewers/mod.rs:5-11 | distinct verdicts have distinct precedences |
| Reviewers.ChooseExamples | src/reviewers/mod.rs:37-42 | the four `test_choose` cases hold: `Reject` beats `Accept`, `ForceAccept` beats `Reject`, `Accept` beats `Noop`, `Noop` with `Noop` is `Noop` |
| Reviewers.ChooseCommutative | src/reviewers/mod.rs:17-21 | choose(a, b) == choose(b, a) for all verdicts |
| Reviewers.ChooseAssociative | src/reviewers/mod.rs:14-22 | choose(choose(a, b), c) == choose(a, choose(b, c)) for all verdicts |
| Reviewers.ChooseIdempotent | src/reviewers/mod.rs:17-21 | choose(a, a) == a |
| Reviewers.ChooseIdentityAndZero | src/reviewers/mod.rs:17-21 | `Noop` is a two-sided identity and `ForceAccept` is two-sided absorbing |
| Reviewers.ChooseAll | src/reviewers/mod.rs:14-22 | `choose` folded left from a seed over a sequence of verdicts; the result is the seed or one of the verdicts. ChooseAllIsMaximum, ChooseAllOrderIndependent and ChooseAllPermutation carry the rest |
| Reviewers.ChooseAllIsMaximum | src/reviewers/mod.rs:14-22 | a fold of `choose` returns the seed or one of the folded verdicts, whichever has the highest precedence |
| Reviewers.ChooseAllOrderIndependent | src/reviewers/mod.rs:14-22 | two verdict sequences with the same members fold to the same verdict from any seed |
| Reviewers.ChooseAllPermutation | src/reviewers/mod.rs:14-22 | any permutation of the verdicts folds to the same verdict |
| Reviewers.ChooseAllNoReject | src/reviewers/mod.rs:17-21 | without a `Reject` in the seed or the verdicts, the fold is never `Reject` |
| Reviewers.Matches | src/reviewers/comment.rs:31-38 | `TextMatch::matches` fails exactly when pattern mode is on and the pattern does not compile, and the error names that pattern |
| Reviewers.MatchesLiteral | src/reviewers/comment.rs:33 | literal mode without inversion is exact equality of text and content |
| Reviewers.MatchesPattern | src/reviewers/comment.rs:32 | pattern mode with a compiling pattern is the engine's search on the unchanged pattern and the whole text, with no anchoring added |
| Reviewers.MatchesInverse | src/reviewers/comment.rs:36-38 | flipping `inverse` negates a decided match and keeps the error unchanged |
| CommentReviewers.TriggerFrom | src/reviewers/comment.rs:8-15 | `regex` and `inverse` are false unless configured true; `content` is kept |
| CommentReviewers.Review | src/reviewers/comment.rs:30-44 | only an uncompilable pattern yields an error, and that error names the pattern; a verdict is always `Accept` or `Noop` |
| CommentReviewers.ReviewLiteral | src/reviewers/comment.rs:31-43 | literal, non-inverted: `Accept` iff the comment equals `content`, `Noop` iff it does not |
| CommentReviewers.ReviewPattern | src/reviewers/comment.rs:32-43 | a compiling pattern: `Accept` iff the engine's search result differs from `inverse` |
| CommentReviewers.ReviewInverse | src/reviewers/comment.rs:36-38 | flipping `inverse` swaps `Accept` and `Noop` and keeps the error |
| CommentReviewers.ReviewIsTextMatch | src/reviewers/comment.rs:30-44 | the comment reviewer gives the same result as `TextMatch::matches` on the same rule, mapped true to `Accept` and false to `Noop` |
| DescriptionReviewers.TriggerFrom | src/reviewers/description.rs:7-11 | the flattened `TextMatch` keeps `content`, and `regex` and `inverse` are false unless configured true |
| DescriptionReviewers.Review | src/reviewers/description.rs:26-31 | `Accept` iff `matches` is Ok(true), `Noop` iff it is Ok(false), and a `matches` error is passed on unchanged; never `Reject` or `ForceAccept` |
| Events.IssueCommentedFrom | src/events.rs:9-15 | the content is the comment body, or empty when the body is absent |
| Events.DescriptionEditedFrom | src/events.rs:21-27 | the content is the pull request's body, or empty when the body is absent |
| Events.EventFrom | src/events.rs:37-45 | fails exactly on payload kinds other than issue comment and pull request, with "Unknown payload found"; comment payloads become comment events |
| Events.EventFromText | src/events.rs:9-27 | a known payload always yields an event whose text is its body, or "" when the body is missing |
| Events.PullRequestActionIgnored | src/events.rs:42 | every pull-request payload is accepted, and its action has no effect on the event |
| Automan.CommentReviewersFrom | src/main.rs:48-53 | one comment reviewer per trigger, in the same order, each holding its trigger unchanged |
| Automan.DescriptionReviewersFrom | src/main.rs:54-59 | one description reviewer per trigger, in the same order, each holding its trigger unchanged |
| Automan.EventReviewersFrom | src/main.rs:45-62 | a missing trigger list gives no reviewers; otherwise each list matches its trigger list in length and order |
| Automan.TryFold | src/main.rs:64-69 | `try_fold` with `fold(e)`. A successful result is the seed or some reviewer's verdict, and an error is some reviewer's error. TryFoldSucceeds, TryFoldValue and TryFoldFirstError pin it down completely |
| Automan.Aggregate | src/main.rs:78-80 | the accumulator loop with its early exit on error computes exactly `TryFold` |
| Automan.Verdicts | src/main.rs:64-69 | when every reviewer succeeds, the i-th verdict is the i-th reviewer's |
| Automan.TryFoldSucceeds | src/main.rs:78-80 | the fold succeeds iff every reviewer succeeds |
| Automan.TryFoldValue | src/main.rs:64-69 | a successful fold is `choose` folded left over the default and then each reviewer's verdict, in list order |
| Automan.TryFoldEmpty | src/main.rs:76-79 | folding no reviewers returns the default unchanged |
| Automan.TryFoldFirstError | src/main.rs:68 | the first reviewer that errors ends the fold with its error, whatever follows it |
| Automan.TryFoldOrderIndependent | src/main.rs:78-79 | reordering the reviewers (same members) does not change a successful fold |
| Automan.TryFoldNoReject | src/main.rs:68 | a fold never yields `Reject` when the seed is not `Reject` and no reviewer returns `Reject` |
| Automan.Judge | src/main.rs:77-80 | no contract of its own: the dispatch of an event to the reviewers of its kind. JudgeByKind, JudgeNoReviewers, JudgeCommentNeverRejects and JudgeDescriptionNeverRejects carry it |
| Automan.JudgeByKind | src/main.rs:77-80 | comment events depend only on the comment reviewers, description events only on the description reviewers |
| Automan.JudgeNoReviewers | src/main.rs:76-80 | with no reviewers for the event's kind, the answer is the default |
| Automan.JudgeDescriptionNeverRejects | src/main.rs:79 | a description event with a non-`Reject` default is never answered `Reject` |
| Automan.JudgeCommentNeverRejects | src/main.rs:78 | a comment event with a non-`Reject` default is never answered `Reject` |
| Automan.ReviewEventFor | src/main.rs:82-86 | `Accept`/`ForceAccept` map to Approve, `Reject` to RequestChanges, and `Noop` to no review; `Comment` is never chosen |
| Automan.Split | src/main.rs:88 | `str::split("/")` always gives at least one segment, so `last()` never hits the default |
| Automan.RepoName | src/main.rs:88 | no contract of its own: the last segment of the repository string. RepoNameIsLastSegment and RepoNameOfOwnerSlashRepo carry it |
| Automan.RepoNameIsLastSegment | src/main.rs:88 | the repo name contains no `/`, ends the repository string, and is the whole string when there is no slash; otherwise a `/` comes right before it |
| Automan.RepoNameOfOwnerSlashRepo | src/main.rs:88 | for "owner/repo" with a slash-free repo, the name is exactly the repo |
| Automan.PullNumber | src/main.rs:89-93 | the issue number for comment payloads, the pull-request number for pull-request payloads, and none otherwise |
| Automan.Run | src/main.rs:73-104 | no contract of its own: `main` from the loaded config and context up to the review it would send. RunRequest, RunDescriptionNeverRequestsChanges, RunNoTriggers and RunApproveComment carry it |
| Automan.RunRequest | src/main.rs:77-104 | an unknown payload ends the run with "Unknown payload found", and a reviewer's error ends it with that error. A `Noop` answer, and only that, ends it with nothing submitted. Any other answer submits a review, which goes to the payload's number in the context's owner/repo, with the configured body and the context's sha. It approves iff the answer is `Accept`/`ForceAccept`, requests changes iff it is `Reject`, and is never a plain comment |
| Automan.RunDescriptionNeverRequestsChanges | src/main.rs:79-84 | a pull-request payload with a non-`Reject` default never leads to RequestChanges |
| Automan.RunNoTriggers | src/main.rs:76-85 | no triggers (an absent or empty list) for the event's kind and a `Noop` default: the run succeeds and submits nothing |
| Automan.RunApproveComment | src/main.rs:73-104 | the comment "/approve" against a literal "/approve" trigger with default `Noop` approves pull request N of "octo/widgets" |
| Automan.InvertedTrigger | src/reviewers/comment.rs:36-43 | an inverted literal "ship-it" trigger accepts "nope" and gives `Noop` for "ship-it" |

## Left out

- Loading the YAML configuration (src/main.rs:33-37) and the context from the environment (src/github.rs:61-65). Both are file and environment I/O; the model takes `Config` and `Context` as values.
- Deserialisation details beyond the field defaults: serde renames, `flatten`, and the JSON shape of payloads. Payloads keep only the fields the core reads, plus the pull request's `action`. The core never reads `action`; it is kept only to state that there is no action filter (`PullRequestActionIgnored`).
- Building the Octocrab client and sending the review with its HTTP post (src/main.rs:95-104, src/github.rs:86-157). These are network I/O. `Run` returns the `ReviewRequest` that would be sent, built from the same fields.
- The regex engine. Compilation and `is_match` are parameters (`RegexEngine`), and regex semantics are not modelled.
- Regex compile errors are reduced to `InvalidPattern(pattern)`; the engine's error text is not modelled.
- Issue and pull-request numbers are unbounded naturals. The `as u64` cast at src/main.rs:90 is not modelled.
- Immutability of reviewers (`review` takes `&self`). It holds trivially here: reviewers are values, so no call can change them.
- The tokio runtime and async: there is no concurrency in the decision.
