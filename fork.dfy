/** `GithubService.fork` and `_is_fork_of`: given `<namespace>/<name>`, find
    or create the user's fork, clone it, and wire up its remotes.

    The forge is a snapshot of what the calls of one `fork` invocation return;
    the result is either the error `fork` raises or the side effects it
    issues, in order. No side effect precedes any of its errors. */
module Fork {
  import opened Wrappers
  import opened Strings
  import opened Actions

  /** What the service reads of a forge repository. `parent` is the full
      name of the repository it was forked from, when the forge reports one. */
  datatype Repo = Repo(name: string, fullName: string, fork: bool, parent: Option<string>,
                       cloneUrl: string, sshUrl: string)

  /** The forge as one `fork` call sees it. */
  datatype Forge = Forge(
    /** `user.get_repo(name)`: a name missing here raises UnknownObjectException */
    userRepos: map<string, Repo>,
    /** `g.get_repo(target)`, read for its clone and SSH URLs */
    target: Repo,
    /** `_fork_gracefully(target)`: `create_fork`'s result, or None where it raises */
    forked: Option<Repo>)

  datatype ForkError =
    /** `target.split("/", 1)` gave one part, so unpacking it raised */
    | NoNamespace
    /** the user's repository of that name is not a fork of the target */
    | NotAForkOf(target: string, userRepo: string)
    /** forking one's own repository, and the user has no repository of that name */
    | RepoNotFound(name: string)
    /** `_fork_gracefully` raised: the target is missing or the forge refused the fork */
    | ForkRefused(target: string)

  /** A snapshot GitHub can produce for the user `login`: each of the user's
      repositories is stored under its own name, lives in the user's
      namespace, and is not its own parent. */
  predicate OwnedBy(forge: Forge, login: string) {
    forall n :: n in forge.userRepos ==>
      && forge.userRepos[n].name == n
      && forge.userRepos[n].fullName == login + "/" + n
      && forge.userRepos[n].parent != Some(forge.userRepos[n].fullName)
  }

  /** `_is_fork_of`: Python's `and` chain over `fork`, `parent` and the
      parent's full name, read as a truth value. */
  predicate IsForkOf(r: Repo, target: string): (b: bool)
    ensures b <==> r.fork && r.parent == Some(target)
  {
    if !r.fork then false
    else
      match r.parent
      case None => false
      case Some(parentName) => parentName == target
  }

  /** The user's repository named `name`, if any. */
  function UserRepo(forge: Forge, name: string): (r: Option<Repo>)
    ensures r.Some? <==> name in forge.userRepos
    ensures r.Some? ==> r.value == forge.userRepos[name]
  {
    if name in forge.userRepos then Some(forge.userRepos[name]) else None
  }

  /** Clone `repo` into a directory named after it, point `origin` at it and
      fetch; unless the user owns the target, also point `upstream` at the
      target between the clone and `origin`. */
  function RemoteSetup(repo: Repo, namespace: string, target: Repo, sameOwner: bool): (t: seq<Action>)
    ensures |t| >= 3 && t[0] == Clone(repo.name, repo.sshUrl, namespace) && t[|t| - 1] == FetchAll
    ensures t[|t| - 2] == SetOrigin(repo.sshUrl, PullMergeName)
    ensures ForkCalls(t) == 0
    ensures UpstreamCalls(t) == if sameOwner then 0 else 1
  {
    var upstream := if sameOwner then [] else [SetUpstream(target.cloneUrl, target.sshUrl, PullMergeName)];
    var t := [Clone(repo.name, repo.sshUrl, namespace)] + upstream + [SetOrigin(repo.sshUrl, PullMergeName), FetchAll];
    CallsAppend([Clone(repo.name, repo.sshUrl, namespace)] + upstream, [SetOrigin(repo.sshUrl, PullMergeName), FetchAll]);
    CallsAppend([Clone(repo.name, repo.sshUrl, namespace)], upstream);
    t
  }

  /** `fork(target)` as written: the fork check of the user's repository comes
      first, whoever owns the target; a target owned by someone else is always
      forked through `_fork_gracefully`. */
  function ForkPlan(login: string, target: string, forge: Forge): (r: Result<seq<Action>, ForkError>)
    ensures r == Failure(NoNamespace) <==> '/' !in target
    ensures r.Success? ==> |r.value| >= 3 && r.value[|r.value| - 1] == FetchAll
    ensures r.Success? ==> ForkCalls(r.value) <= 1 && UpstreamCalls(r.value) <= 1
  {
    match SplitOnce(target, '/')
    case None => Failure(NoNamespace)
    case Some((org, name)) =>
      var existing := UserRepo(forge, name);
      if existing.Some? && !IsForkOf(existing.value, target) then
        Failure(NotAForkOf(target, existing.value.fullName))
      else if login == org then
        if existing.None? then Failure(RepoNotFound(name))
        else Success(RemoteSetup(existing.value, org, forge.target, true))
      else
        match forge.forked
        case None => Failure(ForkRefused(target))
        case Some(f) =>
          CallsAppend([CreateFork(target)], RemoteSetup(f, org, forge.target, false));
          Success([CreateFork(target)] + RemoteSetup(f, org, forge.target, false))
  }

  // ---------------------------------------------------------------------
  // `fork` as written, case by case. The target is `org/name`: split at the
  // first `/`, so `name` may hold further slashes.

  /** The user already has a repository of that name, and it is not a fork of
      the target: `fork` fails before any action, whoever owns the target. */
  lemma ForkRejectsForeignRepo(login: string, org: string, name: string, forge: Forge)
    requires '/' !in org
    requires name in forge.userRepos && !IsForkOf(forge.userRepos[name], org + "/" + name)
    ensures ForkPlan(login, org + "/" + name, forge)
         == Failure(NotAForkOf(org + "/" + name, forge.userRepos[name].fullName))
  {
    assert org + "/" + name == org + ['/'] + name;
    SplitOnceJoin(org, '/', name);
  }

  /** Forking one's own repository without having it fails before any
      action. */
  lemma ForkOwnRepoMissing(login: string, name: string, forge: Forge)
    requires '/' !in login
    requires name !in forge.userRepos
    ensures ForkPlan(login, login + "/" + name, forge) == Failure(RepoNotFound(name))
  {
    assert login + "/" + name == login + ['/'] + name;
    SplitOnceJoin(login, '/', name);
  }

  /** A target owned by someone else: `fork` succeeds exactly when the user
      has no repository of that name or has a fork of the target, and the
      forge forks it; the trace is then one fork creation, the clone of the
      fork, `upstream` on the target, `origin` on the fork, and a fetch. */
  lemma ForkOtherOwner(login: string, org: string, name: string, forge: Forge)
    requires '/' !in org && login != org
    ensures var r := ForkPlan(login, org + "/" + name, forge);
      && (r.Success? <==>
            (name !in forge.userRepos || IsForkOf(forge.userRepos[name], org + "/" + name))
            && forge.forked.Some?)
      && (r.Success? ==>
            && r.value == [CreateFork(org + "/" + name),
                           Clone(forge.forked.value.name, forge.forked.value.sshUrl, org),
                           SetUpstream(forge.target.cloneUrl, forge.target.sshUrl, PullMergeName),
                           SetOrigin(forge.forked.value.sshUrl, PullMergeName),
                           FetchAll]
            && ForkCalls(r.value) == 1 && UpstreamCalls(r.value) == 1)
  {
    assert org + "/" + name == org + ['/'] + name;
    SplitOnceJoin(org, '/', name);
  }

  /** A target the user owns: `fork` succeeds exactly when the user's
      repository of that name claims to be a fork of the target, and then
      clones it, sets `origin` and fetches, with no fork creation and no
      `upstream`. */
  lemma ForkSameOwner(login: string, name: string, forge: Forge)
    requires '/' !in login
    ensures var r := ForkPlan(login, login + "/" + name, forge);
      && (r.Success? <==> name in forge.userRepos && IsForkOf(forge.userRepos[name], login + "/" + name))
      && (r.Success? ==>
            && r.value == [Clone(forge.userRepos[name].name, forge.userRepos[name].sshUrl, login),
                           SetOrigin(forge.userRepos[name].sshUrl, PullMergeName),
                           FetchAll]
            && ForkCalls(r.value) == 0 && UpstreamCalls(r.value) == 0)
  {
    assert login + "/" + name == login + ['/'] + name;
    SplitOnceJoin(login, '/', name);
  }

  /** As written, forking one's own repository never succeeds on a
      well-formed forge: the repository is found, is not a fork of itself,
      and the check ahead of the same-owner branch rejects it. */
  lemma OwnRepoNeverForked(login: string, name: string, forge: Forge)
    requires '/' !in login
    requires OwnedBy(forge, login)
    ensures ForkPlan(login, login + "/" + name, forge).Failure?
  {
    ForkSameOwner(login, name, forge);
    if name in forge.userRepos {
      assert forge.userRepos[name].parent != Some(login + "/" + name);
    }
  }

  /** As written, a user who already has a valid fork of someone else's
      repository still has the forge fork it again. */
  lemma ExistingForkForkedAgain(login: string, org: string, name: string, forge: Forge)
    requires '/' !in org && login != org
    requires name in forge.userRepos && IsForkOf(forge.userRepos[name], org + "/" + name)
    requires forge.forked.Some?
    ensures ForkPlan(login, org + "/" + name, forge).Success?
    ensures ForkCalls(ForkPlan(login, org + "/" + name, forge).value) == 1
  {
    ForkOtherOwner(login, org, name, forge);
  }

  /** `alice` forks `octo-org/widgets` and has no `widgets` of her own. */
  lemma ForkScenarioOtherOrg(forge: Forge)
    requires "widgets" !in forge.userRepos && forge.forked.Some?
    ensures ForkPlan("alice", "octo-org/widgets", forge)
         == Success([CreateFork("octo-org/widgets"),
                     Clone(forge.forked.value.name, forge.forked.value.sshUrl, "octo-org"),
                     SetUpstream(forge.target.cloneUrl, forge.target.sshUrl, PullMergeName),
                     SetOrigin(forge.forked.value.sshUrl, PullMergeName),
                     FetchAll])
  {
    assert "octo-org/widgets" == "octo-org" + "/" + "widgets";
    ForkOtherOwner("alice", "octo-org", "widgets", forge);
  }

  // ---------------------------------------------------------------------
  // The intended workflow: the same-owner case needs no fork check, and an
  // existing valid fork is used without forking again.

  /** `fork(target)` as its comments and docstrings describe it: own
      repository, existing fork, or new fork. */
  function ForkIntended(login: string, target: string, forge: Forge): (r: Result<seq<Action>, ForkError>)
    ensures r == Failure(NoNamespace) <==> '/' !in target
    ensures r.Success? ==> |r.value| >= 3 && r.value[|r.value| - 1] == FetchAll
    ensures r.Success? ==> ForkCalls(r.value) <= 1 && UpstreamCalls(r.value) <= 1
  {
    match SplitOnce(target, '/')
    case None => Failure(NoNamespace)
    case Some((org, name)) =>
      var existing := UserRepo(forge, name);
      if login == org then
        if existing.None? then Failure(RepoNotFound(name))
        else Success(RemoteSetup(existing.value, org, forge.target, true))
      else if existing.Some? then
        if !IsForkOf(existing.value, target) then Failure(NotAForkOf(target, existing.value.fullName))
        else Success(RemoteSetup(existing.value, org, forge.target, false))
      else
        match forge.forked
        case None => Failure(ForkRefused(target))
        case Some(f) =>
          CallsAppend([CreateFork(target)], RemoteSetup(f, org, forge.target, false));
          Success([CreateFork(target)] + RemoteSetup(f, org, forge.target, false))
  }

  /** Forking one's own existing repository clones it, sets `origin` and
      fetches, with no fork creation and no `upstream`. */
  lemma IntendedSameOwner(login: string, name: string, forge: Forge)
    requires '/' !in login
    requires OwnedBy(forge, login) && name in forge.userRepos
    ensures var r := ForkIntended(login, login + "/" + name, forge);
      && r == Success([Clone(name, forge.userRepos[name].sshUrl, login),
                       SetOrigin(forge.userRepos[name].sshUrl, PullMergeName),
                       FetchAll])
      && ForkCalls(r.value) == 0 && UpstreamCalls(r.value) == 0
  {
    assert login + "/" + name == login + ['/'] + name;
    SplitOnceJoin(login, '/', name);
    var u := forge.userRepos[name];
    assert u.name == name;
    assert RemoteSetup(u, login, forge.target, true)
        == [Clone(name, u.sshUrl, login), SetOrigin(u.sshUrl, PullMergeName), FetchAll];
  }

  /** An existing valid fork of someone else's repository is used as it is:
      no fork creation, exactly one `upstream`. */
  lemma IntendedAlreadyForked(login: string, org: string, name: string, forge: Forge)
    requires '/' !in org && login != org
    requires name in forge.userRepos && IsForkOf(forge.userRepos[name], org + "/" + name)
    ensures var r := ForkIntended(login, org + "/" + name, forge);
      && r == Success(RemoteSetup(forge.userRepos[name], org, forge.target, false))
      && ForkCalls(r.value) == 0 && UpstreamCalls(r.value) == 1
  {
    assert org + "/" + name == org + ['/'] + name;
    SplitOnceJoin(org, '/', name);
  }

  /** A same-named repository that is not a fork of someone else's target is
      still an error. */
  lemma IntendedRejectsForeignRepo(login: string, org: string, name: string, forge: Forge)
    requires '/' !in org && login != org
    requires name in forge.userRepos && !IsForkOf(forge.userRepos[name], org + "/" + name)
    ensures ForkIntended(login, org + "/" + name, forge)
         == Failure(NotAForkOf(org + "/" + name, forge.userRepos[name].fullName))
  {
    assert org + "/" + name == org + ['/'] + name;
    SplitOnceJoin(org, '/', name);
  }

  /** Forking one's own repository without having it is still an error. */
  lemma IntendedOwnRepoMissing(login: string, name: string, forge: Forge)
    requires '/' !in login
    requires name !in forge.userRepos
    ensures ForkIntended(login, login + "/" + name, forge) == Failure(RepoNotFound(name))
  {
    assert login + "/" + name == login + ['/'] + name;
    SplitOnceJoin(login, '/', name);
  }

  /** Outside the two corrected cases (one's own repository that is not a
      fork of itself, and someone else's target already validly forked) the
      written and the intended workflows agree, whoever owns the target. */
  lemma IntendedAgreesElsewhere(login: string, org: string, name: string, forge: Forge)
    requires '/' !in org
    requires !(login == org && name in forge.userRepos && !IsForkOf(forge.userRepos[name], org + "/" + name))
    requires !(login != org && name in forge.userRepos && IsForkOf(forge.userRepos[name], org + "/" + name))
    ensures ForkIntended(login, org + "/" + name, forge) == ForkPlan(login, org + "/" + name, forge)
  {
    assert org + "/" + name == org + ['/'] + name;
    SplitOnceJoin(org, '/', name);
  }
}
