/**
 * The pure parts of `src/git.ts`: reading the output of
 * `git log --pretty=format:"%H|%an|%ai|%s"` into commits, the commit
 * message built from a format, and the GitHub URL of a commit. The output
 * of `git` and the remote URL are inputs.
 */
module Git {
  import opened Wrappers
  import opened Strings
  import opened GitHubUrl
  import Sequences

  datatype Commit = Commit(hash: string, message: string, author: string, date: string, shortHash: string)

  /** `hash.substring(0, 7)` */
  function ShortHash(hash: string): (r: string)
    ensures StartsWith(hash, r)
    ensures |r| == if |hash| < 7 then |hash| else 7
  {
    if |hash| < 7 then hash else hash[..7]
  }

  /** Joining the first three fields and the rest is joining them all. */
  lemma JoinFourth(parts: seq<string>, sep: char)
    requires |parts| >= 4
    ensures Join([parts[0], parts[1], parts[2], Join(parts[3..], sep)], sep) == Join(parts, sep)
  {
    var head := [parts[0], parts[1], parts[2]];
    assert parts == head + parts[3..];
    JoinAppend(head, parts[3..], sep);
    assert head + [Join(parts[3..], sep)] == [parts[0], parts[1], parts[2], Join(parts[3..], sep)];
    JoinAppend(head, [Join(parts[3..], sep)], sep);
  }

  /** One line of the log: hash, author, date, and the message, which is
      every field from the fourth on, joined back with `|`. A line with
      fewer than four fields is no commit. */
  function ParseLine(line: string): (r: Option<Commit>)
    ensures r.Some? <==> |Split(line, '|')| >= 4
    ensures r.Some? ==> Join([r.value.hash, r.value.author, r.value.date, r.value.message], '|') == line
    ensures r.Some? ==> '|' !in r.value.hash && '|' !in r.value.author && '|' !in r.value.date
    ensures r.Some? ==> r.value.shortHash == ShortHash(r.value.hash)
  {
    var parts := Split(line, '|');
    if |parts| >= 4 then
      JoinSplit(line, '|');
      JoinFourth(parts, '|');
      Some(Commit(parts[0], Join(parts[3..], '|'), parts[1], parts[2], ShortHash(parts[0])))
    else None
  }

  /** The commits of the lines, in line order. */
  function CommitsOf(lines: seq<string>): (r: seq<Commit>)
    ensures |r| <= |lines|
  {
    if lines == [] then []
    else
      var c := ParseLine(lines[|lines| - 1]);
      CommitsOf(lines[..|lines| - 1]) + (if c.Some? then [c.value] else [])
  }

  /** `output.trim().split("\n").filter((line) => line.trim())` */
  function LogLines(output: string): (r: seq<string>)
    ensures forall k :: 0 <= k < |r| ==> Trim(r[k]) != [] && '\n' !in r[k]
    ensures forall k :: 0 <= k < |r| ==> r[k] in Split(Trim(output), '\n')
    ensures forall l :: l in Split(Trim(output), '\n') ==> (l in r <==> Trim(l) != [])
  {
    NonBlank(Split(Trim(output), '\n'))
  }

  /** `getGitCommitHistory`: outside a repository there are no commits;
      otherwise every line of the log that has four fields is a commit. */
  method GetGitCommitHistory(isRepository: bool, output: string) returns (commits: seq<Commit>)
    ensures !isRepository ==> commits == []
    ensures isRepository ==> commits == CommitsOf(LogLines(output))
  {
    if !isRepository {
      return [];
    }
    commits := [];
    var lines := LogLines(output);
    for i := 0 to |lines|
      invariant commits == CommitsOf(lines[..i])
    {
      CommitsOfNext(lines, i);
      var line := lines[i];
      var parts := Split(line, '|');
      if |parts| >= 4 {
        var hash := parts[0];
        var author := parts[1];
        var date := parts[2];
        var message := Join(parts[3..], '|');
        commits := commits + [Commit(hash, message, author, date, ShortHash(hash))];
      }
    }
    Sequences.TakeAll(lines);
  }

  /** One more line adds the commit it holds, if any. */
  lemma CommitsOfNext(lines: seq<string>, i: nat)
    requires i < |lines|
    ensures var parts := Split(lines[i], '|');
            CommitsOf(lines[..i + 1]) == CommitsOf(lines[..i]) +
              (if |parts| >= 4 then [Commit(parts[0], Join(parts[3..], '|'), parts[1], parts[2], ShortHash(parts[0]))] else [])
  {
    Sequences.PrefixOfPrefix(lines, i);
  }

  /** Commits keep the order of their lines. */
  lemma {:induction false} CommitsOfAppend(a: seq<string>, b: seq<string>)
    ensures CommitsOf(a + b) == CommitsOf(a) + CommitsOf(b)
    decreases |b|
  {
    if b != [] {
      var b' := b[..|b| - 1];
      assert (a + b)[..|a + b| - 1] == a + b';
      assert (a + b)[|a + b| - 1] == b[|b| - 1];
      CommitsOfAppend(a, b');
    } else {
      assert a + b == a;
    }
  }

  /** A line that is not a commit adds nothing. */
  lemma ShortLineSkipped(a: seq<string>, line: string, b: seq<string>)
    requires |Split(line, '|')| < 4
    ensures CommitsOf(a + [line] + b) == CommitsOf(a + b)
  {
    CommitsOfAppend(a + [line], b);
    CommitsOfAppend(a, [line]);
    CommitsOfAppend(a, b);
    assert [line][..0] == [];
  }

  /** A line written from a hash, an author and a date without `|` and any
      message reads back as that commit: a `|` in the message is kept. */
  lemma LineReadsBack(hash: string, author: string, date: string, message: string)
    requires '|' !in hash && '|' !in author && '|' !in date
    ensures ParseLine(Join([hash, author, date, message], '|'))
         == Some(Commit(hash, message, author, date, ShortHash(hash)))
  {
    var ms := Split(message, '|');
    var parts := [hash, author, date] + ms;
    JoinSplit(message, '|');
    JoinAppend([hash, author, date], [message], '|');
    JoinAppend([hash, author, date], ms, '|');
    assert [hash, author, date] + [message] == [hash, author, date, message];
    SplitJoin(parts, '|');
    assert parts[3..] == ms;
  }

  // ---------------------------------------------------------------------
  // Commit message and commit URL

  const Placeholder: string := "{title}"

  /** `commitMessageFormat.replace("{title}", title)`: the first
      placeholder only, with `$` patterns of the title expanded. */
  function CommitMessage(format: string, title: string): string {
    ReplaceFirst(format, Placeholder, title)
  }

  /** The first placeholder takes the title and later ones stay, when the
      title holds no `$`. */
  lemma FirstPlaceholderOnly(a: string, b: string, title: string)
    requires !Contains(a, Placeholder) && '$' !in title
    ensures CommitMessage(a + Placeholder + b, title) == a + title + b
  {
    var s := a + Placeholder + b;
    assert s[|a|..|a| + 7] == Placeholder;
    assert OccursAt(s, Placeholder, |a|);
    forall j: nat | j < |a| ensures !OccursAt(s, Placeholder, j) {
      NoEarlierPlaceholder(a, b, j);
    }
    assert Find(s, Placeholder) == Some(|a|);
    assert s[..|a|] == a && s[|a| + 7..] == b;
    SubstituteLiteral(title, Placeholder, a, b);
  }

  /** No placeholder starts inside `a`: one that is not wholly inside `a`
      would need a `{` of the placeholder after its first character. */
  lemma NoEarlierPlaceholder(a: string, b: string, j: nat)
    requires !Contains(a, Placeholder) && j < |a|
    ensures !OccursAt(a + Placeholder + b, Placeholder, j)
  {
    var s := a + Placeholder + b;
    if j + 7 <= |a| {
      assert s[j..j + 7] == a[j..j + 7];
      assert !OccursAt(a, Placeholder, j);
    } else if j + 7 <= |s| {
      assert s[|a|] == '{';
      assert s[j..j + 7][|a| - j] == s[|a|];
    }
  }

  /** A format without the placeholder is the message as it is. */
  lemma NoPlaceholder(format: string, title: string)
    requires !Contains(format, Placeholder)
    ensures CommitMessage(format, title) == format
  {
  }

  /** `https://github.com/{owner}/{repo}/commit/{hash}` */
  function CommitUrl(repo: Repo, hash: string): string {
    "https://github.com/" + repo.owner + "/" + repo.name + "/commit/" + hash
  }

  /** `getGitHubCommitUrl(hash)` for the remote URL `remote` (`""` when
      there is none), as written: the name loses its first `.git`. */
  function GetGitHubCommitUrlAsWritten(hash: string, remote: string): (r: Option<string>)
    ensures r.None? <==> ParseGitHubRepoFromUrl(remote).None?
    ensures remote == [] ==> r.None?
    ensures r.Some? ==> r.value == CommitUrl(ParseGitHubRepoFromUrl(remote).value, hash)
  {
    if remote == [] then None
    else match ParseGitHubRepoFromUrl(remote)
      case None => None
      case Some(repo) => Some(CommitUrl(repo, hash))
  }

  /** `getGitHubCommitUrl(hash)` with the repository read as the regex
      reads it. */
  function GetGitHubCommitUrl(hash: string, remote: string): (r: Option<string>)
    ensures r.None? <==> RepoFromUrl(remote).None?
    ensures remote == [] ==> r.None?
    ensures r.Some? ==> r.value == CommitUrl(RepoFromUrl(remote).value, hash)
  {
    if remote == [] then None
    else match RepoFromUrl(remote)
      case None => None
      case Some(repo) => Some(CommitUrl(repo, hash))
  }

  /** A `.git` inside the repository name is cut out of the commit URL:
      the commits of `octo/octo.github.io` are looked for under
      `octo/octohub.io`. */
  lemma CommitUrlMidNameGit(pre: string, o: string, a: string, b: string, hash: string)
    requires o != [] && '/' !in o && '/' !in a && '/' !in b && '.' !in a
    requires !EndsWith(a + ".git" + b, ".git")
    ensures var remote := pre + Host + "/" + o + "/" + (a + ".git" + b);
            && GetGitHubCommitUrlAsWritten(hash, remote) == Some("https://github.com/" + o + "/" + (a + b) + "/commit/" + hash)
            && GetGitHubCommitUrl(hash, remote) == Some("https://github.com/" + o + "/" + (a + ".git" + b) + "/commit/" + hash)
  {
    MidNameGitRemoved(pre, o, a, b);
  }

  /** For an HTTPS or SSH remote of `owner/repo`, the commit URL is on
      that repository. */
  lemma CommitUrlOfRemote(pre: string, ssh: bool, o: string, r: string, suffix: string, hash: string)
    requires o != [] && '/' !in o && r != [] && '/' !in r
    requires suffix == "" || suffix == ".git"
    requires suffix == "" ==> !(|r| > 4 && EndsWith(r, ".git"))
    ensures var remote := if ssh then SshHost + o + "/" + r + suffix
                          else pre + Host + "/" + o + "/" + r + suffix;
            GetGitHubCommitUrl(hash, remote) == Some("https://github.com/" + o + "/" + r + "/commit/" + hash)
  {
    if ssh {
      SshRepo(o, r, suffix);
    } else {
      HttpsRepo(pre, o, r, suffix);
    }
  }
}
