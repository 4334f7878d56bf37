/**
 * `parseGitHubRepoFromUrl` of `src/utils/auth/github.ts`: the owner and the
 * repository name read from a git remote URL by the regex
 * `(?:github\.com[/:]|git@github\.com:)([^/]+)\/([^/]+?)(?:\.git)?$`,
 * searched for anywhere in the URL (it is not anchored at the start).
 */
module GitHubUrl {
  import opened Wrappers
  import opened Strings

  datatype Repo = Repo(owner: string, name: string)

  const Host: string := "github.com"
  const SshHost: string := "git@github.com:"

  /** The shortest non-empty prefix of `t` after which only `.git` or
      nothing is left, tried from length `k` on: the lazy group
      `([^/]+?)` followed by `(?:\.git)?$`. */
  function LazyFrom(t: string, k: nat): (g: string)
    requires 1 <= k <= |t|
    decreases |t| - k
  {
    if t[k..] == ".git" || k == |t| then t[..k] else LazyFrom(t, k + 1)
  }

  /** The same group, computed directly: a trailing `.git` is left out
      when something is left before it. */
  function Lazy(t: string): (g: string)
    requires t != []
    ensures g != [] && (g == t || t == g + ".git")
  {
    if |t| > 4 && EndsWith(t, ".git") then
      assert t == t[..|t| - 4] + t[|t| - 4..];
      t[..|t| - 4]
    else t
  }

  lemma {:induction false} LazyFromIsLazy(t: string, k: nat)
    requires 1 <= k <= |t|
    requires |t| > 4 && EndsWith(t, ".git") ==> k <= |t| - 4
    ensures LazyFrom(t, k) == Lazy(t)
    decreases |t| - k
  {
    if t[k..] == ".git" || k == |t| {
    } else {
      LazyFromIsLazy(t, k + 1);
    }
  }

  /** What the groups hold: a non-empty owner and a non-empty name,
      without `/`. */
  predicate Groups(m: (string, string)) {
    m.0 != [] && '/' !in m.0 && m.1 != [] && '/' !in m.1
  }

  /** `([^/]+)\/([^/]+?)(?:\.git)?$` matched against the whole of `r`. */
  function Tail(r: string): (m: Option<(string, string)>)
    ensures m.Some? ==> Groups(m.value)
  {
    match FindChar(r, '/')
    case None => None
    case Some(i) =>
      var t := r[i + 1..];
      if i == 0 || t == [] || '/' in t then None
      else
        var g := Lazy(t);
        assert forall k :: 0 <= k < |g| ==> g[k] == t[k];
        Some((r[..i], g))
  }

  /** The groups of a match starting at position `p`: the first
      alternative is tried before the second. */
  function MatchAt(s: string, p: nat): (m: Option<(string, string)>)
    requires p <= |s|
    ensures m.Some? ==> Groups(m.value)
  {
    if p + 11 <= |s| && OccursAt(s, Host, p) && (s[p + 10] == '/' || s[p + 10] == ':')
       && Tail(s[p + 11..]).Some?
    then Tail(s[p + 11..])
    else if OccursAt(s, SshHost, p) then Tail(s[p + 15..])
    else None
  }

  /** `s.match(regex)` groups: the match that starts leftmost. */
  function Search(s: string, p: nat): (m: Option<(string, string)>)
    requires p <= |s|
    ensures m.Some? ==> Groups(m.value)
    decreases |s| - p
  {
    match MatchAt(s, p)
    case Some(m) => Some(m)
    case None => if p == |s| then None else Search(s, p + 1)
  }

  function ParseGitHubRepoFromUrl(url: string): (r: Option<Repo>)
    ensures url == [] ==> r.None?
    ensures r.Some? ==> r.value.owner != [] && '/' !in r.value.owner && '/' !in r.value.name
  {
    if url == [] then None
    else match Search(url, 0)
      case None => None
      case Some((owner, repo)) =>
        ReplaceKeeps(repo, ".git", '/');
        Some(Repo(owner, ReplaceFirst(repo, ".git", "")))
  }

  /** Dropping a text keeps out a character neither side holds. */
  lemma ReplaceKeeps(s: string, pat: string, c: char)
    requires c !in s
    ensures c !in ReplaceFirst(s, pat, "")
  {
    match Find(s, pat)
    case None =>
    case Some(i) =>
      assert Substitute("", pat, s[..i], s[i + |pat|..]) == [];
      assert ReplaceFirst(s, pat, "") == s[..i] + s[i + |pat|..];
      assert forall k :: 0 <= k < i ==> s[..i][k] == s[k];
      var rest := s[i + |pat|..];
      assert forall k :: 0 <= k < |rest| ==> rest[k] == s[i + |pat| + k];
  }

  // ---------------------------------------------------------------------
  // The second alternative changes nothing

  /** The search with the first alternative only. */
  function MatchHostAt(s: string, p: nat): Option<(string, string)>
    requires p <= |s|
  {
    if p + 11 <= |s| && OccursAt(s, Host, p) && (s[p + 10] == '/' || s[p + 10] == ':')
    then Tail(s[p + 11..])
    else None
  }

  function SearchHost(s: string, p: nat): Option<(string, string)>
    requires p <= |s|
    decreases |s| - p
  {
    match MatchHostAt(s, p)
    case Some(m) => Some(m)
    case None => if p == |s| then None else SearchHost(s, p + 1)
  }

  /** `git@github.com:` at `p` puts `github.com:` at `p + 4` and nowhere
      in between. */
  lemma SshHasHost(s: string, p: nat)
    requires p <= |s| && OccursAt(s, SshHost, p)
    ensures MatchHostAt(s, p + 4) == Tail(s[p + 15..])
    ensures forall j :: p <= j < p + 4 ==> MatchHostAt(s, j) == None
  {
    SshHostAt(s, p);
    SshNoHostBefore(s, p);
  }

  lemma SshHostAt(s: string, p: nat)
    requires p <= |s| && OccursAt(s, SshHost, p)
    ensures MatchHostAt(s, p + 4) == Tail(s[p + 15..])
  {
    var w := s[p..p + 15];
    assert w == SshHost;
    assert SshHost[4..14] == Host;
    assert forall k :: 0 <= k < 10 ==> s[p + 4..p + 14][k] == w[4..14][k];
    assert s[p + 4..p + 14] == Host;
    assert s[p + 14] == w[14] == ':';
  }

  lemma SshNoHostBefore(s: string, p: nat)
    requires p <= |s| && OccursAt(s, SshHost, p)
    ensures forall j :: p <= j < p + 4 ==> MatchHostAt(s, j) == None
  {
    CharAt(s, SshHost, p, 1);
    CharAt(s, SshHost, p, 2);
    CharAt(s, SshHost, p, 3);
    assert Host[0] == 'g' && Host[3] == 'h';
    forall j | p <= j < p + 4 ensures MatchHostAt(s, j) == None {
      if j == p {
        NotAt(s, p, 3);
      } else {
        NotAt(s, j, 0);
      }
    }
  }

  lemma CharAt(s: string, pat: string, p: nat, k: nat)
    requires OccursAt(s, pat, p) && k < |pat|
    ensures s[p + k] == pat[k]
  {
    assert s[p..p + |pat|][k] == s[p + k];
  }

  lemma NotAt(s: string, j: nat, k: nat)
    requires k < 10 && j + k < |s| && s[j + k] != Host[k]
    ensures !OccursAt(s, Host, j) && MatchHostAt(s, j) == None
  {
    if j + 10 <= |s| {
      assert s[j..j + 10][k] == s[j + k];
    }
  }

  /** The `git@github.com:` alternative never finds a match that the
      `github.com:` one would not: both read the same groups. */
  lemma {:induction false} SearchIsSearchHost(s: string, p: nat)
    requires p <= |s|
    ensures Search(s, p) == SearchHost(s, p)
    decreases |s| - p
  {
    if MatchHostAt(s, p).Some? {
    } else if OccursAt(s, SshHost, p) && Tail(s[p + 15..]).Some? {
      SshHasHost(s, p);
      assert SearchHost(s, p) == SearchHost(s, p + 1) == SearchHost(s, p + 2) == SearchHost(s, p + 3)
          == SearchHost(s, p + 4);
    } else if p < |s| {
      SearchIsSearchHost(s, p + 1);
    }
  }

  // ---------------------------------------------------------------------
  // HTTPS and SSH remotes

  /** A tail holding two slashes does not match. */
  lemma TwoSlashes(t: string, a: nat, b: nat)
    requires a < b < |t| && t[a] == '/' && t[b] == '/'
    ensures Tail(t) == None
  {
    match FindChar(t, '/')
    case None =>
    case Some(i) =>
      assert i <= a;
      assert t[i + 1..][b - i - 1] == '/';
  }

  /** The search moves past positions where nothing matches. */
  lemma {:induction false} SkipTo(s: string, p: nat, q: nat)
    requires p <= q <= |s|
    requires forall j :: p <= j < q ==> MatchHostAt(s, j) == None
    ensures SearchHost(s, p) == SearchHost(s, q)
    decreases q - p
  {
    if p < q {
      SkipTo(s, p + 1, q);
    }
  }

  /** The tail `owner/repo` or `owner/repo.git` gives back both parts. */
  lemma TailOf(o: string, r: string, suffix: string)
    requires o != [] && '/' !in o && r != [] && '/' !in r
    requires suffix == "" || suffix == ".git"
    requires suffix == "" ==> !(|r| > 4 && EndsWith(r, ".git"))
    ensures Tail(o + "/" + r + suffix) == Some((o, r))
  {
    var x := r + suffix;
    assert '/' !in x by {
      assert forall k :: 0 <= k < |r| ==> x[k] == r[k];
    }
    TailSplit(o, x);
    LazyOf(r, suffix);
    assert o + "/" + r + suffix == o + ['/'] + x;
  }

  /** A tail with exactly one slash, not at either end, splits there. */
  lemma TailSplit(o: string, x: string)
    requires o != [] && '/' !in o && x != [] && '/' !in x
    ensures Tail(o + ['/'] + x) == Some((o, Lazy(x)))
  {
    var t := o + ['/'] + x;
    FindCharAfter(o, '/', x);
    assert t[|o| + 1..] == x && t[..|o|] == o;
  }

  /** The lazy group of `r` or `r.git` is `r`. */
  lemma LazyOf(r: string, suffix: string)
    requires r != []
    requires suffix == "" || suffix == ".git"
    requires suffix == "" ==> !(|r| > 4 && EndsWith(r, ".git"))
    ensures Lazy(r + suffix) == r
  {
    if suffix == ".git" {
      assert (r + suffix)[..|r|] == r;
    } else {
      assert r + suffix == r;
    }
  }

  /** `<anything>github.com/owner/repo[.git]` matches with the groups
      `owner` and `repo`. The prefix is free, so a host such as
      `notgithub.com` is accepted too. */
  lemma HttpsGroups(pre: string, o: string, r: string, suffix: string)
    requires o != [] && '/' !in o && r != [] && '/' !in r
    requires suffix == "" || suffix == ".git"
    requires suffix == "" ==> !(|r| > 4 && EndsWith(r, ".git"))
    ensures Search(pre + Host + "/" + o + "/" + r + suffix, 0) == Some((o, r))
  {
    var s := pre + Host + "/" + o + "/" + r + suffix;
    var at := |pre|;
    assert s == pre + Host + "/" + (o + "/" + r + suffix);
    assert s[at + 10] == '/' && s[at + 11 + |o|] == '/';
    forall j | 0 <= j < at ensures MatchHostAt(s, j) == None {
      if j + 11 <= |s| {
        TwoSlashes(s[j + 11..], at - j - 1, at + |o| - j);
      }
    }
    SkipTo(s, 0, at);
    assert s[at..at + 10] == Host;
    assert s[at + 11..] == o + "/" + r + suffix;
    TailOf(o, r, suffix);
    SearchIsSearchHost(s, 0);
  }

  /** `<anything>github.com/owner/repo[.git]` names `owner` and `repo`,
      with the first `.git` taken out of the name. */
  lemma HttpsRemote(pre: string, o: string, r: string, suffix: string)
    requires o != [] && '/' !in o && r != [] && '/' !in r
    requires suffix == "" || suffix == ".git"
    requires suffix == "" ==> !(|r| > 4 && EndsWith(r, ".git"))
    ensures ParseGitHubRepoFromUrl(pre + Host + "/" + o + "/" + r + suffix)
         == Some(Repo(o, ReplaceFirst(r, ".git", "")))
  {
    HttpsGroups(pre, o, r, suffix);
  }

  /** `git@github.com:owner/repo[.git]` matches with the groups `owner`
      and `repo`. */
  lemma SshGroups(o: string, r: string, suffix: string)
    requires o != [] && '/' !in o && r != [] && '/' !in r
    requires suffix == "" || suffix == ".git"
    requires suffix == "" ==> !(|r| > 4 && EndsWith(r, ".git"))
    ensures Search(SshHost + o + "/" + r + suffix, 0) == Some((o, r))
  {
    var s := SshHost + o + "/" + r + suffix;
    assert s == SshHost + (o + "/" + r + suffix);
    assert s[..15] == SshHost;
    assert OccursAt(s, SshHost, 0);
    assert s[15..] == o + "/" + r + suffix;
    TailOf(o, r, suffix);
    SshHasHost(s, 0);
    SkipTo(s, 0, 4);
    SearchIsSearchHost(s, 0);
  }

  /** `git@github.com:owner/repo[.git]` names `owner` and `repo`, with the
      first `.git` taken out of the name. */
  lemma SshRemote(o: string, r: string, suffix: string)
    requires o != [] && '/' !in o && r != [] && '/' !in r
    requires suffix == "" || suffix == ".git"
    requires suffix == "" ==> !(|r| > 4 && EndsWith(r, ".git"))
    ensures ParseGitHubRepoFromUrl(SshHost + o + "/" + r + suffix)
         == Some(Repo(o, ReplaceFirst(r, ".git", "")))
  {
    SshGroups(o, r, suffix);
  }

  /** A URL with no `github.com/` or `github.com:` names no repository. */
  lemma NoHost(url: string)
    requires forall j :: 0 <= j && j + 11 <= |url| ==> !(OccursAt(url, Host, j) && (url[j + 10] == '/' || url[j + 10] == ':'))
    ensures ParseGitHubRepoFromUrl(url) == None
  {
    if url != [] {
      SkipTo(url, 0, |url|);
      SearchIsSearchHost(url, 0);
    }
  }

  /** A name without `.git` in it comes back as it is. */
  lemma PlainName(r: string)
    requires !Contains(r, ".git")
    ensures ReplaceFirst(r, ".git", "") == r
    ensures !(|r| > 4 && EndsWith(r, ".git"))
  {
    if |r| > 4 && EndsWith(r, ".git") {
      assert OccursAt(r, ".git", |r| - 4);
    }
  }

  // ---------------------------------------------------------------------
  // A `.git` inside the name

  /** `'.git'` at the front of `".git" + b` and nowhere in `a`: the first
      one is the one between them. */
  lemma ReplaceInside(a: string, b: string)
    requires '.' !in a
    ensures ReplaceFirst(a + ".git" + b, ".git", "") == a + b
  {
    var s := a + ".git" + b;
    assert OccursAt(s, ".git", |a|) by {
      assert s[|a|..|a| + 4] == ".git";
    }
    forall j | 0 <= j < |a| ensures !OccursAt(s, ".git", j) {
      assert s[j] == a[j];
      if j + 4 <= |s| {
        assert s[j..j + 4][0] == s[j];
      }
    }
    assert Contains(s, ".git");
    assert Find(s, ".git") == Some(|a|);
    assert s[..|a|] == a && s[|a| + 4..] == b;
    SubstituteLiteral("", ".git", a, b);
  }

  /** A name holding `.git` anywhere but at its end loses it: the
      repository `octo/octo.github.io` is read as `octo/octohub.io`. */
  lemma MidNameGitRemoved(pre: string, o: string, a: string, b: string)
    requires o != [] && '/' !in o && '/' !in a && '/' !in b && '.' !in a
    requires !EndsWith(a + ".git" + b, ".git")
    ensures ParseGitHubRepoFromUrl(pre + Host + "/" + o + "/" + (a + ".git" + b))
         == Some(Repo(o, a + b))
    ensures RepoFromUrl(pre + Host + "/" + o + "/" + (a + ".git" + b))
         == Some(Repo(o, a + ".git" + b))
  {
    var r := a + ".git" + b;
    assert '/' !in r by {
      assert forall k :: 0 <= k < |r| ==> r[k] in a || r[k] in ".git" || r[k] in b;
    }
    HttpsRemote(pre, o, r, "");
    HttpsGroups(pre, o, r, "");
    assert pre + Host + "/" + o + "/" + r + "" == pre + Host + "/" + o + "/" + r;
    ReplaceInside(a, b);
  }

  /** The repository as the regex reads it: the second group is the name
      already without a trailing `.git`, and nothing more is taken out. */
  function RepoFromUrl(url: string): (r: Option<Repo>)
    ensures r.None? <==> ParseGitHubRepoFromUrl(url).None?
    ensures r.Some? ==> ParseGitHubRepoFromUrl(url) == Some(Repo(r.value.owner, ReplaceFirst(r.value.name, ".git", "")))
    ensures r.Some? ==> r.value.owner != [] && '/' !in r.value.owner && r.value.name != [] && '/' !in r.value.name
  {
    if url == [] then None
    else match Search(url, 0)
      case None => None
      case Some((owner, repo)) => Some(Repo(owner, repo))
  }

  /** Every HTTPS remote names its owner and repository as they are
      written, a `.git` inside the name included. */
  lemma HttpsRepo(pre: string, o: string, r: string, suffix: string)
    requires o != [] && '/' !in o && r != [] && '/' !in r
    requires suffix == "" || suffix == ".git"
    requires suffix == "" ==> !(|r| > 4 && EndsWith(r, ".git"))
    ensures RepoFromUrl(pre + Host + "/" + o + "/" + r + suffix) == Some(Repo(o, r))
  {
    HttpsGroups(pre, o, r, suffix);
  }

  /** Every SSH remote names its owner and repository as they are
      written. */
  lemma SshRepo(o: string, r: string, suffix: string)
    requires o != [] && '/' !in o && r != [] && '/' !in r
    requires suffix == "" || suffix == ".git"
    requires suffix == "" ==> !(|r| > 4 && EndsWith(r, ".git"))
    ensures RepoFromUrl(SshHost + o + "/" + r + suffix) == Some(Repo(o, r))
  {
    SshGroups(o, r, suffix);
  }
}
