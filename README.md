# GitHub service: full-name parsing and the fork workflow

A Dafny model of the core of `tool/services/github_service.py`, the GitHub
backend of a small command-line helper for forking repositories and opening
pull requests. It covers five pieces:

- `get_github_full_name`: turns a git remote URL into `<namespace>/<repo>`
  with two regular-expression substitutions. The model defines the lazy
  anchored match of `^[a-zA-Z0-9:/@]+?github.com.` as "the shortest non-empty
  class run followed by the host". A scanning function is proved to find
  exactly that match. The `$` of `\.git$` also matches before a final
  newline, and the model includes that case.
- The guard of `create_from_remote_url`: there is no service unless
  `github.com` occurs in the URL.
- `_is_fork_of` and `fork`. `fork` is modelled as a function from a forge
  snapshot to either an error or the ordered trace of side effects
  (`CreateFork`, `Clone`, `SetUpstream`, `SetOrigin`, `FetchAll`). A method
  of the `GithubService` class issues those effects step by step, and its
  contract is proved against that function.
- The strings `create_pull_request` builds: `head` is `login:branch`. The
  commit-message range starts at `remote/branch`. The pull request's `base`
  is the branch alone.
- `__init__`: a repository is bound only for a non-empty name.

Files:

- `wrappers.dfy`: Option and Result.
- `strings.dfy`: Python's `in` and `split(sep, 1)`, and a suffix test standing for the `$` anchor.
- `full_name.dfy`: the URL parser and the guard.
- `actions.dfy`: the side effects, and counts over traces.
- `fork.dfy`: the fork workflow as written, and as intended.
- `pull_request.dfy`: the pull-request strings.
- `service.dfy`: the `GithubService` class.

## Model

| member | source | states |
|---|---|---|
| Strings.IndexOf | tool/services/github_service.py:49 | the index found holds the separator and nothing before it does; None only when the separator is absent |
| Strings.SplitOnce | tool/services/github_service.py:49 | `split("/", 1)` unpacks exactly when `/` occurs; the parts rejoin to the input and the first part has no `/` |
| Strings.SplitOnceJoin | tool/services/github_service.py:49 | splitting `a + "/" + b` with `/` not in `a` gives back `(a, b)`, even when `b` holds more slashes |
| FullName.ScanRun | tool/services/github_service.py:17 | the lazy run's backtracking search returns the shortest run followed by `github?com?`, and None only when no run is |
| FullName.MatchHostPrefix | tool/services/github_service.py:17 | the first pattern's match, if any, is the shortest one, and it is absent only when no prefix matches |
| FullName.StripHostPrefix | tool/services/github_service.py:17 | the result is a suffix of the input; it is the whole input exactly when nothing matches; otherwise it is the text after the shortest match |
| FullName.StripGitSuffix | tool/services/github_service.py:18 | exactly four characters go when the input ends in `.git` or `.git\n`; otherwise the input is kept |
| FullName.StripGitSuffixOnce | tool/services/github_service.py:18 | only one `.git` is removed: `t + ".git"` gives `t`, so `a.git.git` gives `a.git` |
| FullName.StripGitSuffixBeforeNewline | tool/services/github_service.py:18 | `$` before a final newline: `t + ".git\n"` gives `t + "\n"` |
| FullName.StripGitSuffixKeeps | tool/services/github_service.py:18 | an input without the suffix is returned unchanged |
| FullName.EndsWithAfter | tool/services/github_service.py:18 | a suffix that does not contain a character cannot reach back past that character |
| FullName.NoGitSuffixAfterSlash | tool/services/github_service.py:18 | `ns/name` has no `.git` suffix when `name` has none |
| FullName.StripAfterPrefix | tool/services/github_service.py:17 | a class run with no later `g`, then `github.com` and a separator, is stripped up to and including the separator |
| FullName.GetGithubFullName | tool/services/github_service.py:15-18 | the full name is never longer than the URL |
| FullName.HttpsRemote | tool/services/github_service.py:15-18 | `https://github.com/ns/name.git` gives `ns/name` for every `ns` and `name` |
| FullName.SshRemote | tool/services/github_service.py:15-18 | `git@github.com:ns/name.git` gives `ns/name` for every `ns` and `name` |
| FullName.HttpsRemoteWithoutSuffix | tool/services/github_service.py:15-18 | without `.git`, the HTTPS form gives the same `ns/name` |
| FullName.SshRemoteWithoutSuffix | tool/services/github_service.py:15-18 | without `.git`, the SSH form gives the same `ns/name` |
| FullName.FullNameDecomposition | tool/services/github_service.py:17-18 | every full name is the input minus nothing or its shortest matched prefix, then minus at most one `.git` |
| FullName.StripGitSuffixIsPrefix | tool/services/github_service.py:18 | without a final newline, the suffix substitution keeps a prefix of its input |
| FullName.FullNameIsInfix | tool/services/github_service.py:17-18 | unless the URL ends in a newline, the full name is a contiguous piece of it |
| FullName.NewlineAfterSuffix | tool/services/github_service.py:18 | `a.git\n` gives `a\n`, which is not a piece of the input |
| FullName.NoMatchBeforeStop | tool/services/github_service.py:17 | a non-class character, with no `g` before it after the first character, rules out every match |
| FullName.NoHostMatchKeepsInput | tool/services/github_service.py:17-18 | with no prefix match only a trailing `.git` is removed |
| FullName.UnmatchedHostForms | tool/services/github_service.py:17-18 | `https://www.github.com/a/b` and `github.com/a/b` come back unchanged |
| FullName.RepoNameFromRemoteUrl | tool/services/github_service.py:36-40 | None exactly when `github.com` is not in the URL; otherwise the URL's full name |
| FullName.GuardAdmitsUnparsedUrl | tool/services/github_service.py:36-40 | the guard admits `https://www.github.com/a/b` and hands on the whole URL as the repository name |
| Actions.ForkCalls | tool/services/github_service.py:86 | counts fork creations in a trace; zero exactly when the trace has none |
| Actions.UpstreamCalls | tool/services/github_service.py:72-74 | counts upstream configurations in a trace; zero exactly when the trace has none |
| Actions.CallsAppend | tool/services/github_service.py:66-76 | both counts add up over concatenated traces |
| Fork.UserRepo | tool/services/github_service.py:53-60 | the user's same-named repository is present exactly when the forge has it, and is that repository |
| Fork.RemoteSetup | tool/services/github_service.py:66-76 | the trace starts with the clone and ends with `origin` and a fetch; no fork creation; one `upstream` unless the user owns the target |
| Fork.ForkPlan | tool/services/github_service.py:47-76 | fails with the unpacking error exactly when the target has no `/`; a successful trace ends in a fetch and holds at most one fork creation and one `upstream` |
| Fork.IsForkOf | tool/services/github_service.py:42-45 | true exactly when the repository is a fork, has a parent, and the parent's full name is the target |
| Fork.ForkRejectsForeignRepo | tool/services/github_service.py:53-58 | a same-named user repository that is not a fork of the target is an error, with no action, whoever owns the target |
| Fork.ForkOwnRepoMissing | tool/services/github_service.py:62-65 | forking one's own namespace without such a repository is an error, with no action |
| Fork.ForkOtherOwner | tool/services/github_service.py:53-76 | for a target owned by someone else: success exactly when there is no clashing repository and the forge forks; the trace is `CreateFork`, `Clone(fork)`, `SetUpstream(target)`, `SetOrigin(fork)`, `FetchAll` |
| Fork.ForkSameOwner | tool/services/github_service.py:53-76 | for one's own target: success exactly when the user's repository claims to be a fork of the target itself; the trace is `Clone`, `SetOrigin`, `FetchAll` |
| Fork.OwnRepoNeverForked | tool/services/github_service.py:53-66 | on a well-formed forge, forking one's own repository always fails |
| Fork.ExistingForkForkedAgain | tool/services/github_service.py:67-68 | an existing valid fork of someone else's repository is forked again |
| Fork.ForkScenarioOtherOrg | tool/services/github_service.py:47-76 | `alice` forking `octo-org/widgets` with no `widgets` of her own: fork, clone of the fork with namespace `octo-org`, upstream, origin, fetch |
| Fork.ForkIntended | tool/services/github_service.py:47-86 | the workflow its comments describe: same shape guarantees as `ForkPlan` |
| Fork.IntendedSameOwner | tool/services/github_service.py:62-66 | forking one's own existing repository clones it, sets `origin` and fetches, with no fork creation and no `upstream` |
| Fork.IntendedAlreadyForked | tool/services/github_service.py:78-86 | an existing valid fork is used as it is: no fork creation, one `upstream` |
| Fork.IntendedRejectsForeignRepo | tool/services/github_service.py:53-57 | a same-named repository that is not a fork of someone else's target is still an error |
| Fork.IntendedOwnRepoMissing | tool/services/github_service.py:62-65 | forking one's own namespace without such a repository is still `RepoNotFound` |
| Fork.IntendedAgreesElsewhere | tool/services/github_service.py:47-76 | outside the two corrected cases (own repository not a fork of itself; someone else's target already validly forked) the intended and the written workflows coincide, whoever owns the target |
| PullRequest.PullRequestHead | tool/services/github_service.py:95 | the head is the login, a `:`, then the branch |
| PullRequest.CommitRangeBase | tool/services/github_service.py:98 | the range base is the remote, a `/`, then the target branch |
| PullRequest.PullRequestOptionsFor | tool/services/github_service.py:102-107 | `base` is the target branch alone; `head` is the login-qualified current branch; title and body pass through |
| PullRequest.HeadRoundTrip | tool/services/github_service.py:95 | for a login without `:`, the head splits back into the login and the branch |
| PullRequest.CommitRangeBaseRoundTrip | tool/services/github_service.py:98-105 | for a remote without `/`, the range base splits into the remote and the request's `base` |
| Service.GithubService.constructor | tool/services/github_service.py:24-31 | a repository is bound exactly when a non-empty name is given; no effects yet |
| Service.GithubService.CreateFromRemoteUrl | tool/services/github_service.py:33-40 | no service unless `github.com` occurs; otherwise a fresh service bound to the URL's full name |
| Service.GithubService.Fork | tool/services/github_service.py:47-76 | on an error no effect is issued; on success the effects are exactly `ForkPlan`'s trace |
| Service.GithubService.CreatePullRequest | tool/services/github_service.py:88-113 | the commit messages are read from `remote/branch`; a pull request from `login:branch` into the branch is opened exactly when a repository is bound |

## Left out

- The GitHub client library calls (`Github`, `get_user`, `get_repo`, `create_fork`, `create_pull`, `get_pulls`) talk to the network. Their answers are parameters: the login, and a `Forge` snapshot holding the user's repositories, the target and the result of forking.
- The git and prompt helpers of `tool.utils` are shell and interactive I/O. They appear only as trace actions. Their own failures (a clone into an existing directory, say) are not modelled. The title and body the user types are parameters.
- `_fork_gracefully`'s probe of `target_repo.full_name` depends on lazy attribute loading and on Python resolving an exception class. It is modelled only as "an error or `create_fork`'s result" (`Forge.forked`). The target's existence at line 51 is likewise checked only through that field.
- `time.sleep(4.0)`, logging and `json.dumps` are timing and diagnostics.
- `list_pull_requests` is left out: the forge sorts the list, so nothing local decides its order.
- The `Service` base class and token handling are not part of this model.
- Service.GithubService.CreatePullRequest: returns the request it submits rather than the pull request's `html_url`, which only the forge knows.
- Errors the forge passes through (authentication, permissions, rate limits) are not modelled. The text of the `RuntimeError` messages is not modelled either; the error records only the names involved.
- The code never checks that a full name has the form `namespace/name`: the parser always returns a string, as `UnmatchedHostForms` shows, and no malformed-name error exists in the model.

## Findings

| source | as written | input that shows it | evidently intended | confidence | as-written member | corrected member |
|---|---|---|---|---|---|---|
| tool/services/github_service.py:53-66 | the fork check on the user's same-named repository runs before the same-owner branch, so forking one's own repository raises "not a fork" | login `alice`, target `alice/widgets`, `alice/widgets` exists and is not a fork | clone the user's own repository and set `origin` (comment at line 63) | high, not executed | Fork.OwnRepoNeverForked | Fork.IntendedSameOwner |
| tool/services/github_service.py:67-68 | a target owned by someone else is always forked, even when the user already has a valid fork of it | login `alice`, target `octo-org/widgets`, `alice/widgets` exists with parent `octo-org/widgets` | use the existing fork ("fork if not forked", line 79) | medium, not executed; the forge may answer with the existing fork | Fork.ExistingForkForkedAgain | Fork.IntendedAlreadyForked |

The first finding assumes a well-formed forge (`Fork.OwnedBy`): each of the user's repositories sits under its own name in the user's namespace, and none is its own parent. `Fork.ForkIntended` is the corrected workflow, and both intended properties are proved about it. `Service.GithubService.Fork` keeps the behaviour of the code as written, so that the class stays a model of the code.
