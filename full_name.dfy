/** `get_github_full_name`: turning a git remote URL into `<namespace>/<repo>`
    with two regular-expression substitutions, and the guard of
    `create_from_remote_url` in front of it.

    First substitution, `^[a-zA-Z0-9:/@]+?github.com.` replaced by "": anchored
    at the start, a non-empty lazy run of characters from the class, then
    `github`, any one character, `com`, any one character (both dots are
    unescaped and, as in any regular expression without DOTALL, match every
    character except a newline). Being anchored, it applies at most once.

    Second substitution, `\.git$` replaced by "": `$` matches at the end of the
    string and also just before a newline that ends the string. */
module FullName {
  import opened Wrappers
  import opened Strings

  /** The character class `[a-zA-Z0-9:/@]`. */
  predicate InHostClass(c: char) {
    || ('a' <= c <= 'z')
    || ('A' <= c <= 'Z')
    || ('0' <= c <= '9')
    || c == ':' || c == '/' || c == '@'
  }

  /** The regular-expression `.`: every character but a newline. */
  predicate AnyChar(c: char) {
    c != '\n'
  }

  /** Length of the text `github.com.` matches. */
  const HostMarkerLength: nat := 11

  /** `github.com.` matches `s` at index `k`. */
  predicate HostMarkerAt(s: string, k: nat) {
    && k + HostMarkerLength <= |s|
    && s[k..k + 6] == "github"
    && AnyChar(s[k + 6])
    && s[k + 7..k + 10] == "com"
    && AnyChar(s[k + 10])
  }

  /** The first pattern matches `s[..k + 11]`, its lazy run being `s[..k]`. */
  predicate PrefixMatch(s: string, k: nat) {
    && 1 <= k
    && HostMarkerAt(s, k)
    && forall i :: 0 <= i < k ==> InHostClass(s[i])
  }

  /** The match the lazy `+?` settles on: the shortest run that works. */
  predicate ShortestPrefixMatch(s: string, k: nat) {
    PrefixMatch(s, k) && forall j: nat :: 1 <= j < k ==> !PrefixMatch(s, j)
  }

  /** The backtracking search of the lazy run: having consumed `s[..k]`, try the
      rest of the pattern, and otherwise take one more class character. */
  function ScanRun(s: string, k: nat): (r: Option<nat>)
    requires 1 <= k <= |s|
    requires forall i :: 0 <= i < k ==> InHostClass(s[i])
    requires forall j: nat :: 1 <= j < k ==> !PrefixMatch(s, j)
    ensures r.Some? ==> ShortestPrefixMatch(s, r.value)
    ensures r.None? ==> forall j: nat :: !PrefixMatch(s, j)
    decreases |s| - k
  {
    if HostMarkerAt(s, k) then Some(k)
    else if k < |s| && InHostClass(s[k]) then ScanRun(s, k + 1)
    else None
  }

  /** Where the first pattern matches, as the length of its lazy run. */
  function MatchHostPrefix(s: string): (r: Option<nat>)
    ensures r.Some? ==> ShortestPrefixMatch(s, r.value)
    ensures r.None? ==> forall j: nat :: !PrefixMatch(s, j)
  {
    if |s| > 0 && InHostClass(s[0]) then ScanRun(s, 1) else None
  }

  /** The first substitution: the input without its matched prefix. */
  function StripHostPrefix(s: string): (r: string)
    ensures |r| <= |s| && r == s[|s| - |r|..]
    ensures r == s <==> forall j: nat :: !PrefixMatch(s, j)
    ensures forall k: nat :: ShortestPrefixMatch(s, k) ==> r == s[k + HostMarkerLength..]
  {
    match MatchHostPrefix(s)
    case None => s
    case Some(k) => s[k + HostMarkerLength..]
  }

  /** Inputs `\.git$` matches: ending in `.git`, or in `.git` and a newline. */
  predicate HasGitSuffix(s: string) {
    EndsWith(s, ".git") || EndsWith(s, ".git\n")
  }

  /** The second substitution: one `.git` removed from the end. */
  function StripGitSuffix(s: string): (r: string)
    ensures HasGitSuffix(s) <==> |r| == |s| - 4
    ensures !HasGitSuffix(s) ==> r == s
  {
    if EndsWith(s, ".git") then s[..|s| - 4]
    else if EndsWith(s, ".git\n") then s[..|s| - 5] + "\n"
    else s
  }

  /** `get_github_full_name` */
  function GetGithubFullName(url: string): (r: string)
    ensures |r| <= |url|
  {
    StripGitSuffix(StripHostPrefix(url))
  }

  /** The guard of `create_from_remote_url`: None unless `github.com` occurs
      in the URL; otherwise the full name handed to the constructor. */
  function RepoNameFromRemoteUrl(url: string): (r: Option<string>)
    ensures r.None? <==> !IsInfix("github.com", url)
    ensures r.Some? ==> r.value == GetGithubFullName(url)
  {
    if !IsInfix("github.com", url) then None
    else Some(GetGithubFullName(url))
  }

  // ---------------------------------------------------------------------
  // The second substitution, input by input

  /** Exactly one `.git` goes: `t + ".git"` gives back `t`, so `a.git.git`
      gives `a.git`. */
  lemma StripGitSuffixOnce(t: string)
    ensures StripGitSuffix(t + ".git") == t
  {
    assert (t + ".git")[|t|..] == ".git";
  }

  /** `$` before a final newline: `t + ".git\n"` gives `t + "\n"`. */
  lemma StripGitSuffixBeforeNewline(t: string)
    ensures StripGitSuffix(t + ".git\n") == t + "\n"
  {
    var s := t + ".git\n";
    assert s[|s| - 5..] == ".git\n";
    assert s[|s| - 4..] != ".git" by { assert s[|s| - 1] == '\n'; }
    assert s[..|s| - 5] == t;
  }

  /** An input the pattern does not match comes back unchanged. */
  lemma StripGitSuffixKeeps(t: string)
    requires !HasGitSuffix(t)
    ensures StripGitSuffix(t) == t
  {
  }

  /** A suffix free of `c` that ends `a + [c] + b` already ends `b`. */
  lemma EndsWithAfter(a: string, c: char, b: string, suffix: string)
    requires c !in suffix
    requires EndsWith(a + [c] + b, suffix)
    ensures EndsWith(b, suffix)
  {
    var x := a + [c] + b;
    if |suffix| <= |b| {
      assert x[|x| - |suffix|..] == b[|b| - |suffix|..];
    } else {
      SliceIndex(x, |x| - |suffix|, |a|);
      assert false;
    }
  }

  /** Indexing a suffix slice. */
  lemma SliceIndex(x: string, lo: int, i: int)
    requires 0 <= lo <= i < |x|
    ensures x[lo..][i - lo] == x[i]
  {
  }

  /** The suffix pattern cannot reach back past a `/`: if `name` does not end
      in `.git` (nor `.git` and a newline), neither does `ns/name`. */
  lemma NoGitSuffixAfterSlash(ns: string, name: string)
    requires !HasGitSuffix(name)
    ensures !HasGitSuffix(ns + "/" + name)
  {
    assert ns + "/" + name == ns + ['/'] + name;
    if EndsWith(ns + "/" + name, ".git") {
      EndsWithAfter(ns, '/', name, ".git");
    }
    if EndsWith(ns + "/" + name, ".git\n") {
      EndsWithAfter(ns, '/', name, ".git\n");
    }
  }

  // ---------------------------------------------------------------------
  // The first substitution on the usual remote forms

  /** A non-empty class run with no `g` after its first character, then the
      host: the match ends exactly after the host and its separator. */
  lemma {:induction false} StripAfterPrefix(p: string, sep: char, rest: string)
    requires |p| >= 1
    requires forall i :: 0 <= i < |p| ==> InHostClass(p[i])
    requires forall i :: 1 <= i < |p| ==> p[i] != 'g'
    requires AnyChar(sep)
    ensures StripHostPrefix(p + "github.com" + [sep] + rest) == rest
  {
    var s := p + "github.com" + [sep] + rest;
    var k := |p|;
    assert s[k..k + 6] == "github";
    assert s[k + 6] == '.';
    assert s[k + 7..k + 10] == "com";
    assert s[k + 10] == sep;
    assert PrefixMatch(s, k);
    forall j: nat | 1 <= j < k
      ensures !PrefixMatch(s, j)
    {
      assert s[j] == p[j] != 'g';
      assert s[j..j + 6][0] == s[j];
    }
    assert ShortestPrefixMatch(s, k);
    assert s[k + HostMarkerLength..] == rest;
  }

  /** `https://github.com/<ns>/<name>.git` gives `<ns>/<name>`. */
  lemma HttpsRemote(ns: string, name: string)
    ensures GetGithubFullName("https://github.com/" + ns + "/" + name + ".git") == ns + "/" + name
  {
    var rest := ns + "/" + name;
    assert "https://github.com/" + ns + "/" + name + ".git" == "https://" + "github.com" + ['/'] + (rest + ".git");
    StripAfterPrefix("https://", '/', rest + ".git");
    StripGitSuffixOnce(rest);
  }

  /** `git@github.com:<ns>/<name>.git` gives `<ns>/<name>`. */
  lemma SshRemote(ns: string, name: string)
    ensures GetGithubFullName("git@github.com:" + ns + "/" + name + ".git") == ns + "/" + name
  {
    var rest := ns + "/" + name;
    assert "git@github.com:" + ns + "/" + name + ".git" == "git@" + "github.com" + [':'] + (rest + ".git");
    StripAfterPrefix("git@", ':', rest + ".git");
    StripGitSuffixOnce(rest);
  }

  /** Without `.git` the HTTPS form gives the same full name. */
  lemma HttpsRemoteWithoutSuffix(ns: string, name: string)
    requires !HasGitSuffix(name)
    ensures GetGithubFullName("https://github.com/" + ns + "/" + name) == ns + "/" + name
  {
    var rest := ns + "/" + name;
    assert "https://github.com/" + ns + "/" + name == "https://" + "github.com" + ['/'] + rest;
    StripAfterPrefix("https://", '/', rest);
    NoGitSuffixAfterSlash(ns, name);
  }

  /** Without `.git` the SSH form gives the same full name. */
  lemma SshRemoteWithoutSuffix(ns: string, name: string)
    requires !HasGitSuffix(name)
    ensures GetGithubFullName("git@github.com:" + ns + "/" + name) == ns + "/" + name
  {
    var rest := ns + "/" + name;
    assert "git@github.com:" + ns + "/" + name == "git@" + "github.com" + [':'] + rest;
    StripAfterPrefix("git@", ':', rest);
    NoGitSuffixAfterSlash(ns, name);
  }

  // ---------------------------------------------------------------------
  // The shape of every result

  /** Every full name is the input with at most one matched prefix (the
      shortest one) dropped and then at most one `.git` dropped. */
  lemma FullNameDecomposition(url: string)
    ensures var d := |url| - |StripHostPrefix(url)|;
      && (d == 0 || ShortestPrefixMatch(url, d - HostMarkerLength))
      && GetGithubFullName(url) == StripGitSuffix(url[d..])
  {
  }

  /** Without a final newline, the second substitution keeps a prefix. */
  lemma StripGitSuffixIsPrefix(m: string)
    requires |m| == 0 || m[|m| - 1] != '\n'
    ensures StripGitSuffix(m) == m[..|StripGitSuffix(m)|]
  {
  }

  /** Unless the URL ends in a newline, its full name is a contiguous piece of
      it. */
  lemma FullNameIsInfix(url: string)
    requires |url| == 0 || url[|url| - 1] != '\n'
    ensures IsInfix(GetGithubFullName(url), url)
  {
    var m := StripHostPrefix(url);
    var d := |url| - |m|;
    assert m == url[d..];
    assert |m| == 0 || m[|m| - 1] == url[|url| - 1];
    StripGitSuffixIsPrefix(m);
    var r := StripGitSuffix(m);
    assert r == url[d..d + |r|];
    assert InfixAt(r, url, d);
  }

  /** With a final newline the result is not a piece of the input:
      `a.git\n` gives `a\n`. */
  lemma NewlineAfterSuffix()
    ensures GetGithubFullName("a.git\n") == "a\n"
    ensures !IsInfix("a\n", "a.git\n")
  {
    var s := "a.git\n";
    NoMatchBeforeStop(s, 1);
    StripGitSuffixBeforeNewline("a");
    assert s == "a" + ".git\n";
    forall i: nat | i <= |s| ensures !InfixAt("a\n", s, i) {
      if i + 2 <= |s| {
        assert s[i..i + 2][0] == s[i];
        assert s[i..i + 2][1] == s[i + 1];
      }
    }
  }

  // ---------------------------------------------------------------------
  // When the first pattern does not match

  /** No match of the first pattern: only a trailing `.git` is removed. */
  lemma NoHostMatchKeepsInput(url: string)
    requires forall j: nat :: !PrefixMatch(url, j)
    ensures GetGithubFullName(url) == StripGitSuffix(url)
  {
  }

  /** A character outside the class at `k`, and no `g` in the run before it
      after its first character: the first pattern cannot match. */
  lemma NoMatchBeforeStop(s: string, k: nat)
    requires k < |s| && !InHostClass(s[k])
    requires forall i :: 1 <= i < k ==> s[i] != 'g'
    ensures forall j: nat :: !PrefixMatch(s, j)
  {
    forall j: nat | 1 <= j && HostMarkerAt(s, j) ensures !PrefixMatch(s, j) {
      assert s[j..j + 6][0] == s[j];
    }
  }

  /** A dot before the host stops the class run: the `www.` form is returned
      unchanged, and so is a URL that starts with the host itself. */
  lemma UnmatchedHostForms()
    ensures GetGithubFullName("https://www.github.com/a/b") == "https://www.github.com/a/b"
    ensures GetGithubFullName("github.com/a/b") == "github.com/a/b"
  {
    var w := "https://www.github.com/a/b";
    NoMatchBeforeStop(w, 11);
    StripGitSuffixKeeps(w);
    var g := "github.com/a/b";
    NoMatchBeforeStop(g, 6);
    StripGitSuffixKeeps(g);
  }

  /** The guard accepts the `www.` form although the parser leaves it whole,
      so the service is built with the whole URL as its repository name. */
  lemma GuardAdmitsUnparsedUrl()
    ensures RepoNameFromRemoteUrl("https://www.github.com/a/b") == Some("https://www.github.com/a/b")
  {
    var w := "https://www.github.com/a/b";
    assert InfixAt("github.com", w, 12);
    UnmatchedHostForms();
  }
}
