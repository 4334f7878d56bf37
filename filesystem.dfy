/**
 * The pure steps of `saveChangelogEntryViaGitHub` and
 * `listChangelogEntriesViaGitHub` in `src/utils/github-filesystem.ts`:
 * where the remote URL comes from, which file an entry is written to,
 * which date an edit keeps, the commit message, and which files of a
 * listing are read as entries. The environment, the GitHub API answers
 * (an existing file, a directory listing, file contents) and the clock are
 * inputs; the commit itself is not made.
 */
module GitHubFileSystem {
  import opened Wrappers
  import opened Strings
  import opened Frontmatter
  import opened Entry
  import opened GitHubUrl
  import opened Git
  import Version
  import RoundTrip
  import Sequences

  // ---------------------------------------------------------------------
  // The remote URL

  /** `process.env[name]`, with an unset variable read as `""`. */
  function EnvVar(env: map<string, string>, name: string): string {
    if name in env then env[name] else ""
  }

  /** `a || b || c` on strings. */
  function FirstSet(a: string, b: string, c: string): (r: string)
    ensures r != [] <==> a != [] || b != [] || c != []
    ensures r == [] || r == a || r == b || r == c
  {
    if a != [] then a else if b != [] then b else c
  }

  const VercelUrl: string := "VERCEL_GIT_REPO_URL"

  function RepoOwner(env: map<string, string>): string {
    FirstSet(EnvVar(env, "CHRONALOG_REPO_OWNER"), EnvVar(env, "VERCEL_GIT_REPO_OWNER"), EnvVar(env, "OST_REPO_OWNER"))
  }

  function RepoSlug(env: map<string, string>): string {
    FirstSet(EnvVar(env, "CHRONALOG_REPO_SLUG"), EnvVar(env, "VERCEL_GIT_REPO_SLUG"), EnvVar(env, "OST_REPO_SLUG"))
  }

  /** `https://github.com/${owner}/${slug}.git` */
  function ComposedRemote(owner: string, slug: string): string {
    "https://" + Host + "/" + owner + "/" + slug + ".git"
  }

  /** The remote URL used, `""` when none can be found: the one given,
      else `VERCEL_GIT_REPO_URL`, else one composed of an owner and a slug
      when both are set. */
  function RemoteFor(given: string, env: map<string, string>): (r: string)
    ensures given != [] ==> r == given
    ensures given == [] && EnvVar(env, VercelUrl) != [] ==> r == EnvVar(env, VercelUrl)
    ensures given == [] && EnvVar(env, VercelUrl) == [] ==>
              r == if RepoOwner(env) != [] && RepoSlug(env) != [] then ComposedRemote(RepoOwner(env), RepoSlug(env)) else []
  {
    if given != [] then given
    else if EnvVar(env, VercelUrl) != [] then EnvVar(env, VercelUrl)
    else if RepoOwner(env) != [] && RepoSlug(env) != [] then ComposedRemote(RepoOwner(env), RepoSlug(env))
    else []
  }

  /** A composed remote is read as its owner and its slug with the first
      `.git` removed, so a slug without `.git` reads back unchanged; the
      corrected reading always gives the slug back. */
  lemma ComposedRemoteParses(owner: string, slug: string)
    requires owner != [] && '/' !in owner && slug != [] && '/' !in slug
    ensures ParseGitHubRepoFromUrl(ComposedRemote(owner, slug)) == Some(Repo(owner, ReplaceFirst(slug, ".git", "")))
    ensures !Contains(slug, ".git") ==> ParseGitHubRepoFromUrl(ComposedRemote(owner, slug)) == Some(Repo(owner, slug))
    ensures RepoFromUrl(ComposedRemote(owner, slug)) == Some(Repo(owner, slug))
  {
    HttpsRemote("https://", owner, slug, ".git");
    HttpsRepo("https://", owner, slug, ".git");
    if !Contains(slug, ".git") {
      PlainName(slug);
    }
  }

  // ---------------------------------------------------------------------
  // The file written

  /** `cleanVersion.replace(/\./g, "-")` after trimming and dropping one
      leading `v` or `V`. */
  function VersionSlug(version: string): (r: string)
    ensures '.' !in r
  {
    ReplaceAllChar(Version.StripV(Trim(version)), '.', '-')
  }

  /** The file name of an entry: `{slug}.mdx` for an edit,
      `v{version slug}.mdx` for a new entry, `None` for a new entry whose
      version is missing or blank. */
  function EntryFilename(entry: Request): (r: Option<string>)
    ensures entry.slug != [] ==> r == Some(entry.slug + ".mdx")
    ensures entry.slug == [] ==> (r.None? <==> Trim(entry.version) == [])
    ensures entry.slug == [] && r.Some? ==> r.value == "v" + VersionSlug(entry.version) + ".mdx"
  {
    if entry.slug != [] then Some(entry.slug + ".mdx")
    else if entry.version == [] || Trim(entry.version) == [] then None
    else Some("v" + VersionSlug(entry.version) + ".mdx")
  }

  /** The written file reads back with the entry's slug: its own for an
      edit, `v` and the version slug for a new entry. */
  lemma FilenameReadsBack(entry: Request)
    requires EntryFilename(entry).Some?
    ensures StripExtension(EntryFilename(entry).value) == if entry.slug != [] then entry.slug else "v" + VersionSlug(entry.version)
  {
    var stem := if entry.slug != [] then entry.slug else "v" + VersionSlug(entry.version);
    var f := stem + ".mdx";
    assert f[|f| - 4..] == ".mdx" && f[..|f| - 4] == stem;
  }

  /** `v1.2.3` (or `1.2.3`) is written to `v1-2-3.mdx`. */
  lemma NewEntryFilename(entry: Request, a: string, b: string, c: string)
    requires entry.slug == [] && '.' !in a && '.' !in b && '.' !in c && a != [] && c != []
    requires a[0] != 'v' && a[0] != 'V' && !IsSpace(a[0]) && !IsSpace(c[|c| - 1])
    requires entry.version == a + "." + b + "." + c || entry.version == "v" + a + "." + b + "." + c
    ensures var t := a + "-" + b + "-" + c; EntryFilename(entry) == Some("v" + t + ".mdx")
  {
    var s := a + "." + b + "." + c;
    assert s[0] == a[0] && s[|s| - 1] == c[|c| - 1];
    if entry.version == s {
      SlugOfPlain(s);
    } else {
      assert entry.version == "v" + s;
      SlugOfPrefixed(s);
    }
    DotsToDashes(a, b, c);
    assert VersionSlug(entry.version) == a + "-" + b + "-" + c;
  }

  lemma SlugOfPlain(s: string)
    requires s != [] && s[0] != 'v' && s[0] != 'V' && !IsSpace(s[0]) && !IsSpace(s[|s| - 1])
    ensures Trim(s) != [] && VersionSlug(s) == ReplaceAllChar(s, '.', '-')
  {
    TrimOfTrimmed(s);
  }

  lemma SlugOfPrefixed(s: string)
    requires s != [] && s[0] != 'v' && s[0] != 'V' && !IsSpace(s[|s| - 1])
    ensures var v := "v" + s; Trim(v) != [] && VersionSlug(v) == ReplaceAllChar(s, '.', '-')
  {
    var v := "v" + s;
    assert v[0] == 'v' && v[|v| - 1] == s[|s| - 1] && v[1..] == s;
    TrimOfTrimmed(v);
  }

  lemma DotsToDashes(a: string, b: string, c: string)
    requires '.' !in a && '.' !in b && '.' !in c
    ensures ReplaceAllChar(a + "." + b + "." + c, '.', '-') == a + "-" + b + "-" + c
  {
    ReplaceAllCharAppend(a + "." + b + ".", c, '.', '-');
    ReplaceAllCharAppend(a + "." + b, ".", '.', '-');
    ReplaceAllCharAppend(a + ".", b, '.', '-');
    ReplaceAllCharAppend(a, ".", '.', '-');
    ReplaceAllCharAbsent(a, '.', '-');
    ReplaceAllCharAbsent(b, '.', '-');
    ReplaceAllCharAbsent(c, '.', '-');
    assert ReplaceAllChar(".", '.', '-') == "-";
  }

  // ---------------------------------------------------------------------
  // The date an edit keeps

  /** `existingEntry.date` of the file being replaced, `""` when there is
      no such file (`existing` is `""`), it does not parse, or its date is
      not a string. */
  function OriginalDate(existing: string, filename: string): string {
    if existing == [] then []
    else match Parse(existing, filename)
      case Err(_) => []
      case Ok(e) => if "date" in e && e["date"].VStr? then e["date"].s else []
  }

  /** `entry.slug && originalDate ? { ...entry, date: originalDate } : entry` */
  function PreservedEntry(entry: Request, existing: string): (r: Request)
    ensures r == entry.(date := r.date)
    ensures entry.slug == [] || OriginalDate(existing, entry.slug + ".mdx") == [] ==> r == entry
    ensures entry.slug != [] && OriginalDate(existing, entry.slug + ".mdx") != [] ==>
              r.date == OriginalDate(existing, entry.slug + ".mdx")
  {
    var original := OriginalDate(existing, entry.slug + ".mdx");
    if entry.slug != [] && original != [] then entry.(date := original) else entry
  }

  /** Editing an entry that this codec wrote keeps the date it was
      written with. */
  lemma EditKeepsDate(entry: Request, written: Request, clock: Clock)
    requires entry.slug != []
    requires RoundTrip.Safe(written, clock)
    ensures PreservedEntry(entry, Serialise(written, clock)).date == EffectiveDate(written, clock)
  {
    var filename := entry.slug + ".mdx";
    var text := Serialise(written, clock);
    var d := EffectiveDate(written, clock);
    RoundTrip.RoundTrip(written, clock, filename);
    RoundTrip.ExpectedHeaderAt(written, clock, Date);
    RoundTrip.TitleDateValues(written, clock);
    SerialisedNotEmpty(written, clock);
    DateReadBack(text, filename, RoundTrip.ExpectedHeader(written, clock), Trim(written.body), d);
  }

  /** The date of a header is the date of the entry parsed with it. */
  lemma DateReadBack(text: string, filename: string, h: map<string, Value>, body: string, d: string)
    requires text != []
    requires Parse(text, filename) == Ok(h["body" := VStr(body)]["slug" := VStr(StripExtension(filename))]["filename" := VStr(filename)])
    requires Name(Date) in h && h[Name(Date)] == VStr(d)
    ensures OriginalDate(text, filename) == d
  {
    var m := h["body" := VStr(body)]["slug" := VStr(StripExtension(filename))]["filename" := VStr(filename)];
    DateKept(h, body, StripExtension(filename), filename, d);
    OriginalDateOf(text, filename, m, d);
  }

  /** Adding the body, slug and file name keeps the header's date. */
  lemma DateKept(h: map<string, Value>, body: string, slug: string, filename: string, d: string)
    requires Name(Date) in h && h[Name(Date)] == VStr(d)
    ensures var m := h["body" := VStr(body)]["slug" := VStr(slug)]["filename" := VStr(filename)];
            "date" in m && m["date"] == VStr(d)
  {
    assert Name(Date) == "date";
  }

  lemma SerialisedNotEmpty(r: Request, clock: Clock)
    ensures Serialise(r, clock) != []
  {
    assert Serialise(r, clock)[..4] == "---\n";
  }

  lemma OriginalDateOf(existing: string, filename: string, m: map<string, Value>, d: string)
    requires existing != [] && Parse(existing, filename) == Ok(m) && "date" in m && m["date"] == VStr(d)
    ensures OriginalDate(existing, filename) == d
  {
  }

  // ---------------------------------------------------------------------
  // Saving

  datatype SaveError = NoRemote | UnparsableRemote | MissingVersion

  /** What a save commits: to which repository, which file, what text,
      with which message. */
  datatype SavePlan = SavePlan(repo: Repo, filePath: string, content: string, message: string)

  /** `saveChangelogEntryViaGitHub` up to the commit. `existing` is the
      text of `{targetDir}/{slug}.mdx` on the branch (`""` when there is no
      such file, and for a new entry, which looks nothing up). */
  method SaveChangelogEntryViaGitHub(entry: Request, given: string, env: map<string, string>,
                                     targetDir: string, existing: string, commitFormat: string,
                                     clock: Clock) returns (res: Result<SavePlan, SaveError>)
    ensures res == Err(NoRemote) <==> RemoteFor(given, env) == []
    ensures res == Err(UnparsableRemote) <==>
              RemoteFor(given, env) != [] && ParseGitHubRepoFromUrl(RemoteFor(given, env)).None?
    ensures res == Err(MissingVersion) <==>
              ParseGitHubRepoFromUrl(RemoteFor(given, env)).Some? && EntryFilename(entry).None?
    ensures res.Ok? ==>
              && res.value.repo == ParseGitHubRepoFromUrl(RemoteFor(given, env)).value
              && res.value.repo.owner == RepoFromUrl(RemoteFor(given, env)).value.owner
              && res.value.repo.name == ReplaceFirst(RepoFromUrl(RemoteFor(given, env)).value.name, ".git", "")
              && res.value.filePath == targetDir + "/" + EntryFilename(entry).value
              && res.value.content == Serialise(PreservedEntry(entry, existing), clock)
              && res.value.message == CommitMessage(commitFormat, entry.title)
  {
    var remoteUrl := FindRemote(given, env);
    if remoteUrl == [] {
      return Err(NoRemote);
    }
    var repoInfo := ParseGitHubRepoFromUrl(remoteUrl);
    if repoInfo.None? {
      return Err(UnparsableRemote);
    }
    var filename, originalDate := TargetFile(entry, existing);
    if filename.None? {
      return Err(MissingVersion);
    }
    var filePath := targetDir + "/" + filename.value;
    var toSerialise := if entry.slug != [] && originalDate != [] then entry.(date := originalDate) else entry;
    var content := Serialise(toSerialise, clock);
    var message := CommitMessage(commitFormat, entry.title);
    return Ok(SavePlan(repoInfo.value, filePath, content, message));
  }

  /** The remote URL the save starts from: the given one, else the
      Vercel URL, else one composed of owner and slug. */
  method FindRemote(given: string, env: map<string, string>) returns (remoteUrl: string)
    ensures remoteUrl == RemoteFor(given, env)
  {
    remoteUrl := given;
    if remoteUrl == [] {
      if EnvVar(env, VercelUrl) != [] {
        remoteUrl := EnvVar(env, VercelUrl);
      } else {
        var repoOwner := RepoOwner(env);
        var repoSlug := RepoSlug(env);
        if repoOwner != [] && repoSlug != [] {
          remoteUrl := ComposedRemote(repoOwner, repoSlug);
        }
      }
    }
  }

  /** The file an entry is saved to (none when a new entry has no
      version), and for an edit the date of the existing file. */
  method TargetFile(entry: Request, existing: string) returns (filename: Option<string>, originalDate: string)
    ensures filename == EntryFilename(entry)
    ensures entry.slug != [] ==> originalDate == OriginalDate(existing, entry.slug + ".mdx")
  {
    originalDate := [];
    if entry.slug != [] {
      filename := Some(entry.slug + ".mdx");
      if existing != [] {
        var parsed := Parse(existing, filename.value);
        if parsed.Ok? && "date" in parsed.value && parsed.value["date"].VStr? {
          originalDate := parsed.value["date"].s;
        }
      }
    } else {
      if entry.version == [] || Trim(entry.version) == [] {
        return None, originalDate;
      }
      var cleanVersion := Version.StripV(Trim(entry.version));
      var versionSlug := ReplaceAllChar(cleanVersion, '.', '-');
      filename := Some("v" + versionSlug + ".mdx");
    }
  }

  // ---------------------------------------------------------------------
  // Listing

  /** One entry of a directory listing. */
  datatype FileInfo = FileInfo(path: string, name: string, kind: string)

  /** A file ending in `.mdx` or `.md` whose type is `blob`. */
  predicate IsEntryFile(f: FileInfo) {
    (EndsWith(f.name, ".mdx") || EndsWith(f.name, ".md")) && f.kind == "blob"
  }

  /** `files.filter(IsEntryFile)` */
  function EntryFiles(files: seq<FileInfo>): (r: seq<FileInfo>)
    ensures |r| <= |files|
    ensures forall k :: 0 <= k < |r| ==> IsEntryFile(r[k]) && r[k] in files
    ensures forall f :: f in files && IsEntryFile(f) ==> f in r
  {
    if files == [] then []
    else
      var p := EntryFiles(files[..|files| - 1]);
      var f := files[|files| - 1];
      assert files == files[..|files| - 1] + [f];
      if IsEntryFile(f) then p + [f] else p
  }

  /** Filtering a concatenation filters each part: the kept files keep
      the listing's order. */
  lemma {:induction false} EntryFilesAppend(a: seq<FileInfo>, b: seq<FileInfo>)
    ensures EntryFiles(a + b) == EntryFiles(a) + EntryFiles(b)
  {
    if b == [] {
      Sequences.AppendEmpty(a);
    } else {
      Sequences.InitOfAppend(a, b);
      EntryFilesAppend(a, b[..|b| - 1]);
    }
  }

  /** One file: it is kept exactly when it is an entry file. */
  lemma EntryFilesOne(f: FileInfo)
    ensures IsEntryFile(f) ==> EntryFiles([f]) == [f]
    ensures !IsEntryFile(f) ==> EntryFiles([f]) == []
  {
    assert [f][..0] == [];
  }

  /** The text fetched for a file: `contents` maps a path to it, and a
      file whose fetch failed is missing or `""`. */
  function ContentOf(f: FileInfo, contents: map<string, string>): string {
    if f.path in contents then contents[f.path] else ""
  }

  /** The entry read from one file: none when it has no content or fails
      to parse. */
  function EntryOf(f: FileInfo, contents: map<string, string>): (r: seq<map<string, Value>>)
    ensures |r| <= 1
  {
    var content := ContentOf(f, contents);
    if content != [] && Parse(content, f.name).Ok? then [Parse(content, f.name).value] else []
  }

  /** The entries parsed from the files, in order. */
  function ParsedEntries(files: seq<FileInfo>, contents: map<string, string>): (r: seq<map<string, Value>>)
    ensures |r| <= |files|
  {
    if files == [] then []
    else ParsedEntries(files[..|files| - 1], contents) + EntryOf(files[|files| - 1], contents)
  }

  /** The loop of `listChangelogEntriesViaGitHub` over the filtered
      listing (before the sort by date). */
  method ListChangelogEntries(files: seq<FileInfo>, contents: map<string, string>)
    returns (entries: seq<map<string, Value>>)
    ensures entries == ParsedEntries(EntryFiles(files), contents)
  {
    var mdxFiles := EntryFiles(files);
    entries := [];
    for i := 0 to |mdxFiles|
      invariant entries == ParsedEntries(mdxFiles[..i], contents)
    {
      var file := mdxFiles[i];
      Sequences.PrefixOfPrefix(mdxFiles, i);
      var found := ReadEntry(file, contents);
      entries := entries + found;
    }
    Sequences.TakeAll(mdxFiles);
  }

  /** The `try` block of the loop for one file: the parsed entry, if the
      file has content and it parses. */
  method ReadEntry(file: FileInfo, contents: map<string, string>) returns (found: seq<map<string, Value>>)
    ensures found == EntryOf(file, contents)
  {
    found := [];
    var content := ContentOf(file, contents);
    if content != [] {
      var parsed := Parse(content, file.name);
      if parsed.Ok? {
        found := [parsed.value];
      }
    }
  }

  /** What every listed entry has: a truthy title and date, and the name
      of its file. */
  predicate ValidEntry(e: map<string, Value>) {
    HasTruthy(e, "title") && HasTruthy(e, "date") && "filename" in e
  }

  /** Every listed entry has a truthy title and date and names its file. */
  lemma {:induction false} ParsedEntriesValid(files: seq<FileInfo>, contents: map<string, string>)
    ensures forall k :: 0 <= k < |ParsedEntries(files, contents)| ==> ValidEntry(ParsedEntries(files, contents)[k])
  {
    if files != [] {
      var f := files[|files| - 1];
      var content := ContentOf(f, contents);
      var p := ParsedEntries(files[..|files| - 1], contents);
      var e := EntryOf(f, contents);
      ParsedEntriesValid(files[..|files| - 1], contents);
      if content != [] && Parse(content, f.name).Ok? {
        ParsedValid(content, f.name);
        assert ValidEntry(e[0]);
      }
      ValidAppend(p, e);
    }
  }

  lemma ValidAppend(a: seq<map<string, Value>>, b: seq<map<string, Value>>)
    requires forall k :: 0 <= k < |a| ==> ValidEntry(a[k])
    requires forall k :: 0 <= k < |b| ==> ValidEntry(b[k])
    ensures forall k :: 0 <= k < |a + b| ==> ValidEntry((a + b)[k])
  {
  }


  /** A parsed entry keeps the truthy `title` and `date` its header was
      checked for. */
  lemma ParsedValid(content: string, filename: string)
    requires Parse(content, filename).Ok?
    ensures var e := Parse(content, filename).value;
            HasTruthy(e, "title") && HasTruthy(e, "date") && e["filename"] == VStr(filename)
  {
    var m := MatchFrontmatter(content).value;
    var fm := Header(content, m);
    assert HasTruthy(fm, "title") && HasTruthy(fm, "date");
  }
}
