/** The `GithubService` object: built for one authenticated user and,
    optionally, one repository; its `fork` and `create_pull_request` issue
    side effects, which the object records in `effects` in the order it
    issues them. The forge's answers are parameters: the login of
    `get_user()`, the snapshot a `fork` call reads, and the title and body
    the user types in. */
module Service {
  import opened Wrappers
  import opened Strings
  import opened FullName
  import opened PullRequest
  import opened Actions
  import opened Fork

  class GithubService {
    /** `self.user.login` */
    const login: string
    /** `self.repo`, by full name; None where no repository name was given */
    const repo: Option<string>
    /** the side effects issued so far */
    var effects: seq<Action>

    /** `__init__`: a repository is bound only for a non-empty name, as
        Python's `if full_repo_name:` treats the empty string as absent. */
    constructor (login: string, fullRepoName: Option<string>)
      ensures this.login == login
      ensures repo.Some? <==> fullRepoName.Some? && fullRepoName.value != ""
      ensures repo.Some? ==> repo == fullRepoName
      ensures effects == []
    {
      this.login := login;
      repo := if fullRepoName.Some? && fullRepoName.value != "" then fullRepoName else None;
      effects := [];
    }

    /** `create_from_remote_url`: null unless `github.com` occurs in the URL;
        otherwise a service bound to the URL's full name. */
    static method CreateFromRemoteUrl(url: string, login: string) returns (s: GithubService?)
      ensures s == null <==> RepoNameFromRemoteUrl(url).None?
      ensures s != null ==> fresh(s) && s.login == login && s.effects == []
      ensures s != null && GetGithubFullName(url) != "" ==> s.repo == Some(GetGithubFullName(url))
      ensures s != null && GetGithubFullName(url) == "" ==> s.repo == None
    {
      if !IsInfix("github.com", url) {
        return null;
      }
      var fullRepoName := GetGithubFullName(url);
      s := new GithubService(login, Some(fullRepoName));
    }

    /** `fork(target)`, step by step: on an error no effect has been issued;
        otherwise the effects are exactly the trace `ForkPlan` gives. */
    method Fork(target: string, forge: Forge) returns (error: Option<ForkError>)
      modifies this
      ensures var plan := ForkPlan(login, target, forge);
        && (plan.Success? ==> error == None && effects == old(effects) + plan.value)
        && (plan.Failure? ==> error == Some(plan.error) && effects == old(effects))
    {
      var parts := SplitOnce(target, '/');
      if parts.None? {
        return Some(NoNamespace);
      }
      var (org, name) := parts.value;
      var userRepo := UserRepo(forge, name);
      if userRepo.Some? && !IsForkOf(userRepo.value, target) {
        return Some(NotAForkOf(target, userRepo.value.fullName));
      }
      var forkedRepo: Repo;
      if login == org {
        if userRepo.None? {
          return Some(RepoNotFound(name));
        }
        forkedRepo := userRepo.value;
        effects := effects + [Clone(forkedRepo.name, forkedRepo.sshUrl, org)];
      } else {
        if forge.forked.None? {
          return Some(ForkRefused(target));
        }
        effects := effects + [CreateFork(target)];
        forkedRepo := forge.forked.value;
        effects := effects + [Clone(forkedRepo.name, forkedRepo.sshUrl, org)];
        effects := effects + [SetUpstream(forge.target.cloneUrl, forge.target.sshUrl, PullMergeName)];
      }
      effects := effects + [SetOrigin(forkedRepo.sshUrl, PullMergeName)];
      effects := effects + [FetchAll];
      error := None;
    }

    /** `create_pull_request`: read the commit messages since
        `<target_remote>/<target_branch>`, then open the pull request from
        `<login>:<current_branch>` into `target_branch` on the bound
        repository. Without a bound repository the messages are read and no
        pull request is opened (Python fails on `None.create_pull`). */
    method CreatePullRequest(targetRemote: string, targetBranch: string, currentBranch: string,
                             title: string, body: string) returns (request: Option<PullRequestOptions>)
      modifies this
      ensures request.Some? <==> repo.Some?
      ensures request.Some? ==> request.value == PullRequestOptionsFor(login, targetBranch, currentBranch, title, body)
      ensures effects == old(effects) + [ReadCommitMessages(CommitRangeBase(targetRemote, targetBranch))]
                         + (if repo.Some? then [OpenPullRequest(repo.value, request.value)] else [])
    {
      var head := PullRequestHead(login, currentBranch);
      var base := CommitRangeBase(targetRemote, targetBranch);
      effects := effects + [ReadCommitMessages(base)];
      var opts := PullRequestOptions(title, body, targetBranch, head);
      if repo.None? {
        return None;
      }
      effects := effects + [OpenPullRequest(repo.value, opts)];
      request := Some(opts);
    }
  }
}
