/** The side effects the service asks of the forge and of the local git
    working copy, recorded in the order it issues them. */
module Actions {
  import opened PullRequest

  /** The `pull_merge_name` every remote is configured with. */
  const PullMergeName: string := "pull"

  datatype Action =
    /** `user.create_fork(target)`: a forge-side fork of the named target. */
    | CreateFork(target: string)
    /** `clone_repo_and_cd_inside(name, ssh_url, namespace)` */
    | Clone(name: string, sshUrl: string, namespace: string)
    /** `set_upstream_remote(clone_url, ssh_url, pull_merge_name)` */
    | SetUpstream(cloneUrl: string, sshUrl: string, pullMergeName: string)
    /** `set_origin_remote(ssh_url, pull_merge_name)` */
    | SetOrigin(sshUrl: string, pullMergeName: string)
    /** `fetch_all()` */
    | FetchAll
    /** `get_commit_msgs(range_base)`: commit messages since the target branch. */
    | ReadCommitMessages(rangeBase: string)
    /** `repo.create_pull(**opts)` on the repository named `repo`. */
    | OpenPullRequest(repo: string, request: PullRequestOptions)

  /** How many fork creations a trace holds. */
  function ForkCalls(t: seq<Action>): (n: nat)
    ensures n <= |t|
    ensures n == 0 <==> forall i :: 0 <= i < |t| ==> !t[i].CreateFork?
  {
    if t == [] then 0
    else (if t[0].CreateFork? then 1 else 0) + ForkCalls(t[1..])
  }

  /** How many upstream-remote configurations a trace holds. */
  function UpstreamCalls(t: seq<Action>): (n: nat)
    ensures n <= |t|
    ensures n == 0 <==> forall i :: 0 <= i < |t| ==> !t[i].SetUpstream?
  {
    if t == [] then 0
    else (if t[0].SetUpstream? then 1 else 0) + UpstreamCalls(t[1..])
  }

  /** Both counts add up over concatenation. */
  lemma {:induction false} CallsAppend(s: seq<Action>, t: seq<Action>)
    ensures ForkCalls(s + t) == ForkCalls(s) + ForkCalls(t)
    ensures UpstreamCalls(s + t) == UpstreamCalls(s) + UpstreamCalls(t)
  {
    if s == [] {
      assert s + t == t;
    } else {
      assert (s + t)[1..] == s[1..] + t;
      CallsAppend(s[1..], t);
    }
  }
}
