# Chronolog changelog core, in Dafny

Chronolog keeps a product changelog as one Markdown file per release: a
`---`-delimited, YAML-like header (`title`, `date`, `version`, `tags`,
`features`, `bugfixes`, …) followed by the body. Chronolog writes these
files into a GitHub repository. This project models the parts of it that
compute, not the parts that talk to GitHub, to `git` or to the browser:

- the document codec of `src/mdx.ts`:
  - tag normalisation;
  - the serialiser;
  - the frontmatter regex;
  - the line-by-line header parser, a small state machine written as a loop;
  - the parser's checks and derived fields;
  - slug generation;
  - the round trip from serialising to parsing;
- the version helpers of `src/version.ts`: increment, validation and `v`
  stripping, with `parseInt` and its `NaN` modelled;
- `parseGitHubRepoFromUrl`, the unanchored regex search that reads an owner
  and a repository name from a git remote;
- from `src/git.ts`:
  - the `git log` line parser loop;
  - the `{title}` commit-message substitution;
  - the commit URL;
- from `src/utils/github-filesystem.ts`:
  - how the remote URL is resolved;
  - how the file name is chosen;
  - how an edit keeps the entry's date;
  - the listing filter and the listing loop;
- from `src/utils/github-config.ts`: reading and saving the predefined tags
  and the home URL;
- the filename sanitiser of the media-delete route.

The modules are:

- `Wrappers`, `Numbers`, `Strings`, `Sequences` and `Json`: shared vocabulary.
- `Tags`, `Frontmatter`, `Entry`, `RoundTrip` and `Slug`: `src/mdx.ts`.
- `Version`: `src/version.ts`.
- `GitHubUrl`: `src/utils/auth/github.ts`.
- `Git`: `src/git.ts`.
- `GitHubFileSystem`: `src/utils/github-filesystem.ts`.
- `GitHubConfig`: `src/utils/github-config.ts`.
- `MediaDelete`: `src/admin/api-examples/media-delete.ts`.

The code is in two forms, as in the source:

- Pure code is functions and lemmas.
- The three loops that build their results step by step are methods with
  loop invariants. Each is proved equal to a function, and the lemmas are
  about that function. The three loops are:
  - `Frontmatter.ParseYamlFrontmatter`;
  - `Git.GetGitCommitHistory`;
  - `GitHubFileSystem.ListChangelogEntries`.
- `GitHubFileSystem.SaveChangelogEntryViaGitHub` is a method as well. It
  reassigns the remote URL, the file name and the original date step by
  step, as the source does. Those steps are in its helper methods
  `GitHubFileSystem.FindRemote` and `GitHubFileSystem.TargetFile`.

Some things the source reads become parameters:

- Clock readings are a `Clock` value.
- Environment variables are a map.
- The output of `git log`, file contents fetched from GitHub, and what
  `JSON.parse` made of a file are parameters too.

Two conventions hold throughout:

- An absent optional string or list is `""` or `[]`. The source treats an
  absent one and an empty one alike at every use.
- Characters follow JavaScript for the subset modelled:
  - `trim` and `\s` use the ECMAScript white-space set.
  - `toLowerCase` is ASCII only.
  - `JSON.stringify` of a string is modelled in full.

## Model

| member | source | states |
|---|---|---|
| Tags.NormaliseTags | src/mdx.ts:6-15 | An empty list gives `[]`. Every tag in the result is non-empty, trimmed and has no upper-case letter, and no tag occurs twice. |
| Tags.NormaliseTagsMembers | src/mdx.ts:11-14 | A tag is in the result exactly when it is non-empty and some input tag trims and lower-cases to it. |
| Tags.NormaliseTagsOrder | src/mdx.ts:14 | Kept tags appear in the order of their first occurrence among the cleaned tags. |
| Tags.NormaliseTagsIdempotent | src/mdx.ts:6-15 | Normalising a normalised list changes nothing. |
| Tags.NormaliseTagsExample | src/mdx.ts:11-14 | `["B", " b ", "a"]` normalises to `["b", "a"]`. |
| Entry.EffectiveDate | src/mdx.ts:24-40 | No date gives the current time. A `YYYY-MM-DD` date gives the clock's reading for that day. Any other date is written unchanged. |
| Entry.TrimAll | src/mdx.ts:68-79 | The trimmed features or bugfixes: no more items than before, each non-empty and trimmed. |
| Entry.TrimAllMembers | src/mdx.ts:68-79 | An item is kept exactly when it is non-empty and some input item trims to it. |
| Entry.TrimAllAppend | src/mdx.ts:68-79 | Trimming a concatenation concatenates the trimmed parts, so the kept items keep their order and multiplicity. |
| Entry.TrimAllOne | src/mdx.ts:68-79 | A single item is kept trimmed, unless it trims to nothing, in which case it is dropped. With `TrimAllAppend`, this determines the result on every list. |
| Entry.Serialise | src/mdx.ts:20-95 | The document written for an entry. Its keys and their order are stated by `FieldKeys`, and parsing it back by `RoundTrip.RoundTrip`. |
| Entry.FieldKeys | src/mdx.ts:42-79 | The header keys come in the order title, date, version, commitHash, updatedAt, tags, features, bugfixes. Title and date are always written. Each other key is written exactly when its condition holds: version and commitHash non-empty, slug given, normalised tags non-empty, features or bugfixes given (even if all blank). |
| Entry.ItemLines | src/mdx.ts:84 | A list renders as one `  - <JSON string>` line per element, in order. |
| Json.EscapeChar | src/mdx.ts:84-87 | `JSON.stringify` leaves ordinary characters alone and writes quotes, backslashes and control characters as a backslash escape. |
| Json.QuotePlain | src/mdx.ts:87 | A string with nothing to escape is JSON-quoted as `"` + itself + `"`. |
| Entry.MatchFrontmatter | src/mdx.ts:105-106 | It finds a match exactly when the text has the shape `^---\s*\n(…)\n---\s*\n(…)$`. The match it picks is the one the backtracking regex prefers among all that fit: the longest opening white space, then the first closing line, then the longest trailing white space. |
| Entry.StripExtension | src/mdx.ts:127 | The slug is a prefix of the file name. What is cut off is exactly one `.mdx` or `.md`, or nothing, and nothing only when the name ends in neither (case-sensitive). |
| Entry.Parse | src/mdx.ts:100-140 | It fails for a missing frontmatter; else for a falsy title; else for a falsy date; else for truthy tags that are not a list. Each failure holds exactly when its condition does, in that order. On success it gives the header with tags normalised, the trimmed body, the slug and the file name. |
| Entry.NormaliseTagsField | src/mdx.ts:129-132 | Tags that are a list are replaced by their normalised form. Every other key is unchanged. |
| Entry.Entry | src/mdx.ts:134-139 | The keys are the header's keys plus `body`, `slug` and `filename`. Those three hold the trimmed body, the stripped name and the name. The header fields are kept, with tags normalised. |
| Frontmatter.Coerce | src/mdx.ts:196-209 | A scalar is tried as `true`/`false`, then `null`, then an integer `-?\d+`, then a decimal `-?\d+\.\d+`, then a string. Each outcome holds exactly when the earlier ones fail and its pattern matches, and a string keeps its text. |
| Frontmatter.Flush | src/mdx.ts:169-174 | A pending non-empty list is stored under its key, and the list state is reset. Otherwise nothing changes. |
| Frontmatter.ParseYaml | src/mdx.ts:145-218 | What the frontmatter parser returns. It is stated by `ParseYamlFrontmatter`, `ParseYamlNoEmptyLists` and `RoundTrip.HeaderReadBack`. |
| Frontmatter.ParseYamlFrontmatter | src/mdx.ts:145-218 | The loop over lines, with its `currentKey`, `currentValue` and `inArray` state, computes the specification `ParseYaml`. |
| Frontmatter.BlankLinesIgnored | src/mdx.ts:155-156 | Blank lines change nothing: parsing the lines equals parsing the non-blank ones. |
| Frontmatter.StepFlushes | src/mdx.ts:169-178 | A line that is not an item first stores a pending list. A line without a colon does nothing else. |
| Frontmatter.StepKeyLine | src/mdx.ts:176-209 | The key is split off at the first colon. A value of `""` or `[]` starts list mode with no items. Any other value is unquoted, coerced and stored, overwriting an earlier value of the same key. |
| Frontmatter.ScalarLineStep | src/mdx.ts:180-209 | A `key: value` line becomes the current key and stores the coerced value, replacing any earlier one. |
| Frontmatter.HeaderLineStep | src/mdx.ts:180-188 | A `key:` line becomes the current key and starts an empty list. |
| Frontmatter.StepItemLine | src/mdx.ts:158-167 | A `- ` line adds its unquoted value only when there is a current key in list mode. Otherwise it is dropped, and nothing else changes. |
| Frontmatter.ItemLineStep | src/mdx.ts:159-165 | An item line the serialiser wrote adds the JSON-escaped text, because quotes are stripped and escapes are not decoded. |
| Frontmatter.UnquoteQuoted | src/mdx.ts:163 | Dropping one leading and one trailing quote from `JSON.stringify(x)` gives the escaped `x`, not `x`. |
| Frontmatter.StripQuotesQuoted | src/mdx.ts:191-194 | One pair of double quotes around a scalar is removed. |
| Frontmatter.FinishStoresPending | src/mdx.ts:212-215 | A list still being collected at the end of the input is stored. |
| Frontmatter.ParseYamlNoEmptyLists | src/mdx.ts:170-215 | A key whose list collected no items is never stored. |
| Frontmatter.EmptyArrayQuirk | src/mdx.ts:170-188 | After a `key:` with no items, `inArray` stays set. So `- ` lines after the next scalar key become a list under that scalar key. |
| Frontmatter.CoerceScalarText | src/mdx.ts:196-209 | A boolean, null, integer, decimal or plain string, printed, coerces back to itself. |
| RoundTrip.ExpectedHeaderSpec | src/mdx.ts:42-79 | The header map holds exactly the names of the written keys, each with its written value, and no other name. |
| RoundTrip.HeaderReadBack | src/mdx.ts:145-218 | The header lines the serialiser writes parse back to that header map. |
| RoundTrip.RoundTrip | src/mdx.ts:20-140 | For a request whose texts are plain, parsing the serialised document gives back: title, date, version, commitHash and updatedAt as written; tags normalised; features and bugfixes trimmed with blanks dropped (absent if none were given); the body trimmed; the slug and file name from the name. |
| Slug.GenerateSlug | src/mdx.ts:223-232 | A non-empty slug that is given is returned unchanged. Otherwise the slug is the lower-cased title's maximal `[a-z0-9]` runs, joined by single dashes. |
| Slug.Collapse | src/mdx.ts:230 | Each run of characters outside `[a-z0-9]` becomes one `-`. `CollapseTrimmed` relates it to the words of the text. |
| Slug.CollapseTrimmed | src/mdx.ts:228-231 | Replacing each run of other characters by `-` and then trimming dashes equals joining the words with `-`. |
| Slug.GeneratedShape | src/mdx.ts:228-231 | A generated slug holds only `[a-z0-9-]`, never two dashes in a row, and no dash at either end. |
| Slug.GenerateSlugIdempotent | src/mdx.ts:223-232 | Generating a slug from a generated slug changes nothing. |
| Version.StripV | src/version.ts:12 | Exactly one leading `v` or `V` is removed, if there is one. |
| Version.ParseInt | src/version.ts:16-18 | `parseInt`. It is stated by `ParseIntLeading` and `ParseIntShow`. |
| Version.Inc | src/version.ts:27-36 | `n + 1`, where `NaN + 1` is `NaN`. |
| Version.ParseIntLeading | src/version.ts:16-18 | The leading digits are taken, so `3rc` reads as 3. |
| Version.ParseIntShow | src/version.ts:40 | A number or `NaN`, printed and read again, gives itself. |
| Version.IncrementVersion | src/version.ts:7-41 | The bumped version. It is stated by `IncrementReadsBack`, `MissingComponent`, `NaNComponent`, `ExtraComponentsIgnored` and `IncrementValid`. |
| Version.IncrementReadsBack | src/version.ts:7-41 | The result reads back as the input's components bumped: major gives `M+1.0.0`, minor gives `M.m+1.0`, patch gives `M.m.p+1`. `NaN` included. |
| Version.MissingComponent | src/version.ts:15-18 | A missing or empty component counts as 0, so `v2` with patch gives `2.0.1`. |
| Version.NaNComponent | src/version.ts:16-18 | A component with no leading number parses to `NaN`, and `NaN` goes into the result, so `1.x.3` with minor gives `1.NaN.0`. |
| Version.ExtraComponentsIgnored | src/version.ts:15-18 | Components after the third do not change the result. |
| Version.IncrementValid | src/version.ts:25-40 | For a valid version, the result is valid, it has the bumped numbers, and it is newer in (major, minor, patch) order. |
| Version.IsValidVersion | src/version.ts:48-55 | Whether a version is valid. It is stated by `SemverOf`, `SemverChars` and `TwoPartsInvalid`. |
| Version.SemverOf | src/version.ts:48-55 | `digits.digits.digits` is valid with or without one leading `v` or `V`. |
| Version.SemverChars | src/version.ts:53 | A valid version, once stripped, holds only digits and dots. So `1.2.3-beta` and `vv1.2.3` are invalid. |
| Version.TwoPartsInvalid | src/version.ts:53 | `digits.digits`, such as `1.2`, is invalid. |
| Version.ExtractVersion | src/version.ts:62-67 | It gives nothing exactly for an empty version. Otherwise it gives the version without one leading `v`/`V`, unchecked. |
| GitHubUrl.LazyFromIsLazy | src/utils/auth/github.ts:75 | The lazy group `([^/]+?)` before `(?:\.git)?$` is the shortest non-empty prefix after which only `.git` or nothing is left. That is the tail with a trailing `.git` dropped. |
| GitHubUrl.Search | src/utils/auth/github.ts:75 | The leftmost match of the regex: a match holds a non-empty owner and a non-empty name, neither with a `/`. `SearchIsSearchHost` and `LazyFromIsLazy` pin down which match it is. |
| GitHubUrl.SearchIsSearchHost | src/utils/auth/github.ts:75 | The `git@github.com:` alternative never changes the match. The `github.com:` alternative finds the same groups. |
| GitHubUrl.ParseGitHubRepoFromUrl | src/utils/auth/github.ts:69-83 | An empty URL gives nothing. A result has a non-empty owner without `/` and a name without `/`. This is the code as written. |
| GitHubUrl.HttpsRemote | src/utils/auth/github.ts:75-80 | `…github.com/o/r` and `…github.com/o/r.git` give owner `o` and name `r` with its first `.git` removed. Any prefix is accepted, so `notgithub.com` is too. |
| GitHubUrl.SshRemote | src/utils/auth/github.ts:75-80 | `git@github.com:o/r[.git]` gives owner `o` and name `r` with its first `.git` removed. |
| GitHubUrl.TwoSlashes | src/utils/auth/github.ts:75 | A tail holding two slashes after `github.com[/:]` does not match. |
| GitHubUrl.NoHost | src/utils/auth/github.ts:75-82 | A URL with no `github.com/` or `github.com:` gives nothing. |
| GitHubUrl.PlainName | src/utils/auth/github.ts:80 | A name without `.git` in it is kept as it is. |
| GitHubUrl.MidNameGitRemoved | src/utils/auth/github.ts:80 | A `.git` inside a name is cut out, so `octo/octo.github.io` gives `octohub.io`. The corrected reading keeps `octo.github.io`. |
| GitHubUrl.RepoFromUrl | src/utils/auth/github.ts:69-83 | The corrected parser. It fails exactly when the original does. Otherwise it gives the regex groups as they are, and the original is this result with the first `.git` removed from the name. |
| GitHubUrl.HttpsRepo | src/utils/auth/github.ts:75 | With the correction, every HTTPS remote `…github.com/o/r[.git]` names `o` and `r` as written. |
| GitHubUrl.SshRepo | src/utils/auth/github.ts:75 | With the correction, every SSH remote `git@github.com:o/r[.git]` names `o` and `r` as written. |
| Git.ShortHash | src/git.ts:255 | The short hash is the first `min(7, length)` characters of the hash. |
| Git.ParseLine | src/git.ts:246-259 | A line gives a commit exactly when it has at least four `|` fields. Hash, author and date hold no `|`. Those three and the message, joined again by `|`, give back the line, so a `|` in the message is kept. |
| Strings.NonBlank | src/git.ts:243 | Every kept line is a non-blank line of the input, and every non-blank line of the input is kept. |
| Strings.NonBlankAppend | src/git.ts:243 | Filtering a concatenation concatenates the filtered parts, so the kept lines keep their order and multiplicity. |
| Strings.NonBlankOne | src/git.ts:243 | A single line is kept when it is not blank and dropped when it is. With `NonBlankAppend`, this determines the filter on every list. |
| Git.LogLines | src/git.ts:243 | The lines of the trimmed output split on `\n`. A line of that split is kept exactly when it is not blank, and every kept line is such a line and holds no newline. Order is kept by `NonBlankAppend`. |
| Git.CommitsOf | src/git.ts:245-261 | No more commits than lines. Its order and contents are stated by `CommitsOfAppend`, `ShortLineSkipped` and `LineReadsBack`. |
| Git.GetGitCommitHistory | src/git.ts:225-263 | Outside a repository the result is empty. Otherwise the loop's result is the commits of the log lines, in order. |
| Git.CommitsOfAppend | src/git.ts:245-261 | The commits of two runs of lines are the commits of each, one after the other, so line order is kept. |
| Git.ShortLineSkipped | src/git.ts:247 | A line with fewer than four fields adds no commit. |
| Git.LineReadsBack | src/git.ts:246-258 | A `hash|author|date|message` line gives exactly those fields. |
| Git.CommitMessage | src/git.ts:173 | The commit message made from the format. It is stated by `FirstPlaceholderOnly` and `NoPlaceholder`. |
| Git.FirstPlaceholderOnly | src/git.ts:173 | Only the first `{title}` of the format takes the title, and later ones stay, for a title without `$`. Text before it may hold other braces, as in `[{scope}] {title}`. |
| Git.NoPlaceholder | src/git.ts:173 | A format without `{title}` is the commit message unchanged. |
| Git.GetGitHubCommitUrlAsWritten | src/git.ts:190-202 | No remote, or one the regex does not match, gives nothing. Otherwise it gives `https://github.com/{owner}/{repo}/commit/{hash}`, with the repository read as written. |
| Git.CommitUrlMidNameGit | src/git.ts:198 | A `.git` inside the repository name is cut out of the commit URL. The corrected reading keeps it. |
| Git.GetGitHubCommitUrl | src/git.ts:190-202 | The corrected commit URL. It exists exactly when the remote parses, and it is built from the repository as the regex reads it. |
| Git.CommitUrlOfRemote | src/git.ts:195-199 | For an HTTPS or SSH remote of `o/r`, the corrected URL is `https://github.com/o/r/commit/{hash}`. |
| GitHubFileSystem.FirstSet | src/utils/github-filesystem.ts:45-46 | `a \|\| b \|\| c` on strings: the first non-empty one, or empty when all are. |
| GitHubFileSystem.RemoteFor | src/utils/github-filesystem.ts:39-52 | The remote is the one given, else `VERCEL_GIT_REPO_URL`, else `https://github.com/{owner}/{slug}.git`. Owner and slug are each the first set of the CHRONALOG_, VERCEL_GIT_ and OST_ variables, and both must be set. Otherwise there is none. |
| GitHubFileSystem.ComposedRemoteParses | src/utils/github-filesystem.ts:49 | `parseGitHubRepoFromUrl` reads a composed remote as its owner, and its slug with the first `.git` removed. So a slug without `.git` reads back unchanged. The corrected reading always gives the slug back. |
| GitHubFileSystem.VersionSlug | src/utils/github-filesystem.ts:93-94 | The version slug holds no dots. |
| GitHubFileSystem.EntryFilename | src/utils/github-filesystem.ts:70-96 | An edit writes `{slug}.mdx`. Without a slug, a blank version is an error. Otherwise the name is `v` + the trimmed version, without one leading `v`/`V`, with dots made dashes, + `.mdx`. |
| GitHubFileSystem.NewEntryFilename | src/utils/github-filesystem.ts:93-95 | `a.b.c` or `va.b.c` gives `va-b-c.mdx`, so `v1.2.3` gives `v1-2-3.mdx`. |
| GitHubFileSystem.FilenameReadsBack | src/utils/github-filesystem.ts:70-95 | The file written is read back under the slug it was written for. |
| GitHubFileSystem.OriginalDate | src/utils/github-filesystem.ts:68-84 | The existing entry's date. `EditKeepsDate` states it for a file the serialiser wrote. |
| GitHubFileSystem.PreservedEntry | src/utils/github-filesystem.ts:101-103 | Only `date` can change. An edit whose existing file gives a date takes that date. A new entry, or an edit whose existing file is missing, does not parse or has no string date, is unchanged. |
| GitHubFileSystem.EditKeepsDate | src/utils/github-filesystem.ts:70-106 | Editing a file the serialiser wrote keeps the date that file holds. |
| GitHubFileSystem.SaveChangelogEntryViaGitHub | src/utils/github-filesystem.ts:38-123 | It fails for no remote, then for a remote that does not parse, then for a missing version. Each failure holds exactly when its condition does. Otherwise the plan commits to the repository `parseGitHubRepoFromUrl` reads, as the code does: the corrected reading with the first `.git` removed from the name. It does so at `{dir}/{filename}`, with the serialised entry (date kept) and the `{title}` message. |
| GitHubFileSystem.EntryFiles | src/utils/github-filesystem.ts:252-254 | The listing keeps exactly the files named `*.mdx` or `*.md` whose type is `blob`. |
| GitHubFileSystem.EntryFilesAppend | src/utils/github-filesystem.ts:252-254 | Filtering a concatenated listing concatenates the filtered parts, so the kept files keep the listing's order. |
| GitHubFileSystem.EntryFilesOne | src/utils/github-filesystem.ts:252-254 | A single file is kept exactly when it is an entry file. With `EntryFilesAppend`, this determines the filter on every listing. |
| GitHubFileSystem.ListChangelogEntries | src/utils/github-filesystem.ts:257-290 | The loop gives the parsed entries of the kept files, in order. Files without content, and files that fail to parse, are skipped. |
| GitHubFileSystem.FindRemote | src/utils/github-filesystem.ts:39-52 | The branches over the given URL and the environment yield exactly `RemoteFor`. |
| GitHubFileSystem.TargetFile | src/utils/github-filesystem.ts:66-96 | The file name chosen is `EntryFilename`, with none for a new entry without a version. For an edit, the date found is that of the existing file, or empty when it has none or fails to parse. |
| GitHubFileSystem.ParsedEntriesValid | src/utils/github-filesystem.ts:283-286 | Every listed entry has a truthy title and date and carries its file name. |
| GitHubConfig.CheckRemote | src/utils/github-config.ts:19-26 | It fails exactly for a missing remote, or for one that names no GitHub repository. |
| GitHubConfig.StringsOf | src/utils/github-config.ts:41-43 | A string is kept exactly when it is one of the list's string elements, and no more strings are kept than there are elements. The order and multiplicity of the kept strings are stated by `StringsOfAppend` and `StringsOfOne`. |
| GitHubConfig.StringsOfAppend | src/utils/github-config.ts:41-43 | Filtering a concatenation concatenates the filtered parts, so the kept strings keep their order and multiplicity. |
| GitHubConfig.StringsOfOne | src/utils/github-config.ts:41-43 | A single string element is kept and any other element is dropped. With `StringsOfAppend`, this determines the filter on every list. |
| GitHubConfig.StringsOfStrings | src/utils/github-config.ts:41 | A list of strings is kept whole and in order. |
| GitHubConfig.TagsIn | src/utils/github-config.ts:39-46 | A top-level list gives its strings. An object whose `tags` is a list gives that list's strings. Anything else gives none. |
| GitHubConfig.ReadPredefinedTags | src/utils/github-config.ts:13-51 | It fails exactly for a missing or unparsable remote. An empty file, or one `JSON.parse` rejects, gives `[]`. Otherwise it gives the tags in the parsed file. |
| GitHubConfig.LessTotal | src/utils/github-config.ts:92 | The order `sort()` uses is total on strings. |
| GitHubConfig.LessTransitive | src/utils/github-config.ts:92 | The order is transitive. |
| GitHubConfig.Sort | src/utils/github-config.ts:92 | The sorted list is a permutation of the input, in order. |
| GitHubConfig.CleanTags | src/utils/github-config.ts:88-94 | The tags that are saved. They are stated by `CleanTagsSpec` and `CleanTagsIdempotent`. |
| GitHubConfig.CleanTagsSpec | src/utils/github-config.ts:88-94 | The saved tags are strictly increasing, so they have no repeats. Each is non-empty and trimmed. A text is saved exactly when it is non-empty and some string tag trims to it. |
| GitHubConfig.CleanTagsIdempotent | src/utils/github-config.ts:88-94 | Cleaning saved tags again changes nothing. |
| GitHubConfig.Spread | src/utils/github-config.ts:97-100 | `{...existing}`: an object gives its fields, and a list or string gives its indices. |
| GitHubConfig.SavePredefinedTags | src/utils/github-config.ts:56-100 | It fails exactly for a missing or unparsable remote. Otherwise the written config has `tags` set to the cleaned tags, and every other key of the existing config is kept unchanged. |
| GitHubConfig.SavedTagsReadBack | src/utils/github-config.ts:97-100 | Reading the written config gives back the cleaned tags. |
| GitHubConfig.HomeUrlIn | src/utils/github-config.ts:152-157 | The home URL is non-empty and trimmed. An object whose `homeUrl` is a non-blank string gives that string trimmed. Anything else gives `/`. |
| GitHubConfig.ReadHomeUrl | src/utils/github-config.ts:129-162 | A missing or unparsable remote, an empty file, or one `JSON.parse` rejects, gives `/`. Otherwise it gives the file's home URL. |
| GitHubConfig.ValidHomeUrl | src/utils/github-config.ts:199 | A non-blank string is stored trimmed. Anything else is stored as `/`. |
| GitHubConfig.SaveHomeUrl | src/utils/github-config.ts:167-205 | It fails exactly for a missing or unparsable remote. Otherwise `homeUrl` is set to the cleaned URL, and every other key of the existing config is kept unchanged. |
| GitHubConfig.SavedHomeUrlReadBack | src/utils/github-config.ts:202-205 | Reading the written config gives back the cleaned home URL. |
| GitHubConfig.ReadHomeUrlSavesUnchanged | src/utils/github-config.ts:154-155 | A home URL that was read is saved as it is. |
| GitHubConfig.HomeUrlSaveKeepsTags | src/utils/github-config.ts:202-205 | Saving the home URL leaves the tags of an object config as they were. |
| MediaDelete.CheckFilename | src/admin/api-examples/media-delete.ts:28-38 | A falsy filename is refused with 400, before any sanitising. A truthy non-string fails with 500. A non-empty string goes on as its sanitised form. |
| MediaDelete.ReplaceDisallowed | src/admin/api-examples/media-delete.ts:37 | Every character outside `[a-zA-Z0-9._-]` becomes `-`, one for one, with no collapsing of runs. |
| MediaDelete.Sanitise | src/admin/api-examples/media-delete.ts:36-38 | The sanitised name holds only `[a-zA-Z0-9._-]` and has no `-` at either end. |
| MediaDelete.SanitiseOneForOne | src/admin/api-examples/media-delete.ts:36-38 | The sanitised name is one stretch of the replaced name. Only dashes or disallowed characters lie outside that stretch. |
| MediaDelete.NoSeparators | src/admin/api-examples/media-delete.ts:36-38 | No `/` and no `\` survive. |
| MediaDelete.SanitiseKeeps | src/admin/api-examples/media-delete.ts:36-38 | A name of allowed characters with no end dashes, `.` and `..` included, is kept as it is. |
| MediaDelete.SanitiseIdempotent | src/admin/api-examples/media-delete.ts:36-38 | Sanitising twice is sanitising once. |
| MediaDelete.TrailingSlash | src/admin/api-examples/media-delete.ts:36-38 | `name/` is sanitised to `name`. |
| MediaDelete.ParentDirectory | src/admin/api-examples/media-delete.ts:36-38 | `../` is sanitised to `..`. |

## Findings

| source | as written | input that shows it | evidently intended | confidence | as-written member | corrected member |
|---|---|---|---|---|---|---|
| src/utils/auth/github.ts:80 | `match[2].replace('.git', '')` removes the first `.git` anywhere in the name. The regex has already dropped a trailing `.git`. | `https://github.com/octo/octo.github.io` gives name `octohub.io` | name `octo.github.io`: only the optional `.git` suffix is dropped, which the regex already does | high (not executed) | GitHubUrl.MidNameGitRemoved | GitHubUrl.RepoFromUrl |
| src/git.ts:198 | The same `replace('.git', '')` on the commit URL's repository name. | remote `git@github.com:octo/octo.github.io.git`, or the HTTPS form, gives `https://github.com/octo/octohub.io/commit/…` | `https://github.com/octo/octo.github.io/commit/…` | high (not executed) | Git.CommitUrlMidNameGit | Git.GetGitHubCommitUrl |

`Git.GetGitHubCommitUrl` builds its link from the corrected
`GitHubUrl.RepoFromUrl`. `GitHubFileSystem.SaveChangelogEntryViaGitHub`
and `GitHubFileSystem.ComposedRemoteParses` follow the code. They read the
repository with `GitHubUrl.ParseGitHubRepoFromUrl`, and their contracts
also state the corrected reading it differs from. So a save to
`https://github.com/octo/octo.github.io` is planned on `octohub.io`. The as-written `GitHubUrl.ParseGitHubRepoFromUrl` and
`Git.GetGitHubCommitUrlAsWritten` are kept, with their lemmas. The two
parsers fail on exactly the same URLs, so every "no remote / unparsable
remote" error decision is the same under both.

## Notes on the code

Where the code and its description differ, the model follows the code:

- The slug is taken from the file name by a case-sensitive `\.mdx?$`, so
  `entry.MDX` keeps its extension.
- A version component with no leading number becomes `NaN` in the output,
  not 0.
- `trim()` on the body removes all white space at both ends, newlines
  included.
- `String.prototype.replace` with a string pattern interprets `$` patterns
  in the replacement. So a title holding `$&` or `` $` `` does not go into
  the commit message literally; `Strings.Substitute` models this.
- An array-mode key with no items leaves list mode on, as
  `Frontmatter.EmptyArrayQuirk` shows.

## Left out

- Dates and time:
  - The local-time `setHours` and `toISOString` of a `YYYY-MM-DD` date,
    the current time, and the `updatedAt` stamp are the three readings of
    the `Clock` parameter. An impossible date such as `2024-99-99` makes
    `toISOString` throw a `RangeError` in the code. The model gives it a
    reading like any other date and does not model the error.
  - The newest-first sort of listed entries by `Date.getTime`
    (src/utils/github-filesystem.ts:293-297) is not modelled.
    `GitHubFileSystem.ListChangelogEntries` returns the entries in listing
    order.
- Numbers:
  - A decimal header value is kept as its digit text, not as a
    `parseFloat` result.
  - `parseInt` is unbounded here, with no loss of precision above 2^53.
- Unicode:
  - `toLowerCase` is modelled on ASCII letters only.
  - Dafny characters are Unicode scalar values, not UTF-16 code units:
    - `sort()` compares code points, which differs from UTF-16 order only
      for characters outside the Basic Multilingual Plane;
    - the sanitiser turns such a character into one `-` where JavaScript
      writes two.
- JSON:
  - `JSON.parse` of a config file is an input: `Some` value, or `None`
    when it throws.
  - `JSON.stringify` of the written config is left out: the model gives
    the written object's fields, not its text or key order.
  - A `__proto__` key is treated as an ordinary key.
- GitHubFileSystem.OriginalDate: the date kept on an edit is taken only
  when the existing header's `date` is a string. A date the header parser
  coerced to a number or boolean is not carried over.
- I/O and services are not modelled:
  - `execSync` calls: git's stdout and `isGitRepository` are parameters.
  - GitHub GraphQL and REST calls: file contents and listings are
    parameters.
  - OAuth; the commit itself, `getBranchOid` and `createCommit`.
  - `loadChronalogConfig`: the target directory and the commit format are
    parameters.
  - The route-handler plumbing of the media-delete example: the session
    check (401), `path.join`, the `startsWith` containment check, the
    `existsSync` check (404) and `unlinkSync`.
- Git.GetGitCommitHistory: the `try`/`catch` around `execSync` counts only
  as "not a repository". The `limit` argument only shapes the `git log`
  command.
- UI, React state, the admin pages and the compiled `dist/` copies are not
  part of this model.
- Concurrency: the promise-based flows and concurrent commits are not
  modelled.
