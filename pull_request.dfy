/** The strings `create_pull_request` builds: the pull request's `head`, the
    commit range it reads messages over, and the request itself. */
module PullRequest {
  import opened Wrappers
  import opened Strings

  /** The keyword arguments handed to `create_pull`. */
  datatype PullRequestOptions = PullRequestOptions(title: string, body: string, base: string, head: string)

  /** `"{}:{}".format(login, branch)`: the branch, qualified by its owner. */
  function PullRequestHead(login: string, branch: string): (head: string)
    ensures |head| == |login| + 1 + |branch|
    ensures head[|login|] == ':' && head[..|login|] == login && head[|login| + 1..] == branch
  {
    login + ":" + branch
  }

  /** `"{}/{}".format(remote, branch)`: the remote-tracking name of the
      target branch, where the commit messages start. */
  function CommitRangeBase(remote: string, branch: string): (base: string)
    ensures |base| == |remote| + 1 + |branch|
    ensures base[|remote|] == '/' && base[..|remote|] == remote && base[|remote| + 1..] == branch
  {
    remote + "/" + branch
  }

  /** The request: `base` is the target branch alone, `head` is qualified by
      the user's login. */
  function PullRequestOptionsFor(login: string, targetBranch: string, currentBranch: string,
                                 title: string, body: string): (o: PullRequestOptions)
    ensures o.base == targetBranch
    ensures o.head == PullRequestHead(login, currentBranch)
    ensures o.title == title && o.body == body
  {
    PullRequestOptions(title, body, targetBranch, PullRequestHead(login, currentBranch))
  }

  /** A login has no `:`, so the forge reads the head back as the pair it
      was built from. */
  lemma HeadRoundTrip(login: string, branch: string)
    requires ':' !in login
    ensures SplitOnce(PullRequestHead(login, branch), ':') == Some((login, branch))
  {
    assert PullRequestHead(login, branch) == login + [':'] + branch;
    SplitOnceJoin(login, ':', branch);
  }

  /** A remote name has no `/`, so the range base splits back into the remote
      and the target branch, which is the request's `base`. */
  lemma CommitRangeBaseRoundTrip(login: string, remote: string, targetBranch: string, currentBranch: string,
                                 title: string, body: string)
    requires '/' !in remote
    ensures SplitOnce(CommitRangeBase(remote, targetBranch), '/')
         == Some((remote, PullRequestOptionsFor(login, targetBranch, currentBranch, title, body).base))
  {
    assert CommitRangeBase(remote, targetBranch) == remote + ['/'] + targetBranch;
    SplitOnceJoin(remote, '/', targetBranch);
  }
}
