/**
 * The changelog document codec of `src/mdx.ts`: `serialiseChangelogEntry`
 * renders a save request as a `---`-delimited header of `key: value`
 * lines followed by the body, and `parseChangelogEntry` reads such a
 * document back, checking the required fields.
 */
module Entry {
  import opened Wrappers
  import opened Strings
  import Json
  import Tags
  import opened Frontmatter
  import Sequences

  // ---------------------------------------------------------------------
  // Serialising

  /** `SaveChangelogRequest`. An optional field that is absent is the
      empty string or the empty list: every use treats the two alike. */
  datatype Request = Request(
    title: string,
    date: string,
    version: string,
    tags: seq<string>,
    features: seq<string>,
    bugfixes: seq<string>,
    body: string,
    slug: string,
    commitHash: string)

  /** The readings of the clock the serialiser takes: the ISO form of the
      request's date at the current local time of day (only used for a
      `YYYY-MM-DD` date), the current time for a request without a date,
      and the current time for `updatedAt`. */
  datatype Clock = Clock(atDate: string, now: string, stamp: string)

  predicate IsDigitAt(s: string, i: nat) {
    i < |s| && '0' <= s[i] <= '9'
  }

  /** The regex `^\d{4}-\d{2}-\d{2}$`. */
  predicate IsDateOnly(d: string) {
    |d| == 10 && d[4] == '-' && d[7] == '-'
    && IsDigitAt(d, 0) && IsDigitAt(d, 1) && IsDigitAt(d, 2) && IsDigitAt(d, 3)
    && IsDigitAt(d, 5) && IsDigitAt(d, 6) && IsDigitAt(d, 8) && IsDigitAt(d, 9)
  }

  /** The `date` written to the header. */
  function EffectiveDate(r: Request, clock: Clock): (d: string)
    ensures r.date == [] ==> d == clock.now
    ensures r.date != [] && IsDateOnly(r.date) ==> d == clock.atDate
    ensures r.date != [] && !IsDateOnly(r.date) ==> d == r.date
  {
    if r.date != [] then (if IsDateOnly(r.date) then clock.atDate else r.date) else clock.now
  }

  /** `list.map((f) => f.trim()).filter((f) => f.length > 0)` */
  function TrimAll(xs: seq<string>): (r: seq<string>)
    ensures |r| <= |xs|
    ensures forall k :: 0 <= k < |r| ==> r[k] != [] && Trimmed(r[k])
  {
    if xs == [] then []
    else
      var t := Trim(xs[0]);
      (if t != [] then [t] else []) + TrimAll(xs[1..])
  }

  /** An item is kept exactly when it is the non-empty trimmed form of
      some input item. */
  lemma {:induction false} TrimAllMembers(xs: seq<string>, x: string)
    ensures x in TrimAll(xs) <==> x != [] && exists t :: t in xs && Trim(t) == x
  {
    if xs != [] {
      TrimAllMembers(xs[1..], x);
      assert xs == [xs[0]] + xs[1..];
      if exists t :: t in xs && Trim(t) == x {
        var t :| t in xs && Trim(t) == x;
        if t != xs[0] {
          assert t in xs[1..];
        }
      }
    }
  }

  /** Trimming a concatenation trims each part: the kept items keep their
      order and their multiplicity. */
  lemma {:induction false} TrimAllAppend(a: seq<string>, b: seq<string>)
    ensures TrimAll(a + b) == TrimAll(a) + TrimAll(b)
  {
    if a == [] {
      Sequences.EmptyAppend(b);
    } else {
      Sequences.TailOfAppend(a, b);
      TrimAllAppend(a[1..], b);
    }
  }

  /** One item: it is kept trimmed unless it is blank. */
  lemma TrimAllOne(x: string)
    ensures Trim(x) != [] ==> TrimAll([x]) == [Trim(x)]
    ensures Trim(x) == [] ==> TrimAll([x]) == []
  {
    assert [x][1..] == [];
  }

  /** The keys the serialiser writes, in the order it assigns them. */
  datatype Key = Title | Date | Version | CommitHash | UpdatedAt | TagsKey | Features | Bugfixes

  function Name(k: Key): string {
    match k
    case Title => "title"
    case Date => "date"
    case Version => "version"
    case CommitHash => "commitHash"
    case UpdatedAt => "updatedAt"
    case TagsKey => "tags"
    case Features => "features"
    case Bugfixes => "bugfixes"
  }

  const AllKeys: seq<Key> := [Title, Date, Version, CommitHash, UpdatedAt, TagsKey, Features, Bugfixes]

  /** The names of the keys. */
  const KeyNames: set<string> := {"title", "date", "version", "commitHash", "updatedAt", "tags", "features", "bugfixes"}

  lemma NameInKeyNames(k: Key)
    ensures Name(k) in KeyNames
  {
  }

  /** One entry of the header object: a string or a list of strings. */
  datatype Field = Scalar(key: Key, text: string) | List(key: Key, items: seq<string>)

  function OptScalar(k: Key, v: string): seq<Field> {
    if v != [] then [Scalar(k, v)] else []
  }

  /** The entry the header object gets for one key, if any. */
  function FieldFor(r: Request, clock: Clock, k: Key): seq<Field> {
    match k
    case Title => [Scalar(Title, r.title)]
    case Date => [Scalar(Date, EffectiveDate(r, clock))]
    case Version => OptScalar(Version, r.version)
    case CommitHash => OptScalar(CommitHash, r.commitHash)
    case UpdatedAt => if r.slug != [] then [Scalar(UpdatedAt, clock.stamp)] else []
    case TagsKey =>
      var tags := Tags.NormaliseTags(r.tags);
      if tags != [] then [List(TagsKey, tags)] else []
    case Features => if r.features != [] then [List(Features, TrimAll(r.features))] else []
    case Bugfixes => if r.bugfixes != [] then [List(Bugfixes, TrimAll(r.bugfixes))] else []
  }

  function FieldsOf(r: Request, clock: Clock, ks: seq<Key>): seq<Field> {
    if ks == [] then [] else FieldFor(r, clock, ks[0]) + FieldsOf(r, clock, ks[1..])
  }

  /** The header object, in the order its keys are assigned. */
  function Fields(r: Request, clock: Clock): seq<Field> {
    FieldsOf(r, clock, AllKeys)
  }

  /** Whether the serialiser writes the key. */
  predicate Present(r: Request, k: Key) {
    match k
    case Title => true
    case Date => true
    case Version => r.version != []
    case CommitHash => r.commitHash != []
    case UpdatedAt => r.slug != []
    case TagsKey => Tags.NormaliseTags(r.tags) != []
    case Features => r.features != []
    case Bugfixes => r.bugfixes != []
  }

  function Keys(fs: seq<Field>): (ks: seq<Key>)
    ensures |ks| == |fs| && forall k :: 0 <= k < |fs| ==> ks[k] == fs[k].key
  {
    if fs == [] then [] else [fs[0].key] + Keys(fs[1..])
  }

  /** The keys of `ks` that the serialiser writes for `r`, in order. */
  function PresentKeys(r: Request, ks: seq<Key>): seq<Key> {
    if ks == [] then [] else (if Present(r, ks[0]) then [ks[0]] else []) + PresentKeys(r, ks[1..])
  }

  /** `${key}:` and one `  - <JSON string>` line per item, or
      `${key}: <JSON string>` for a string with a colon, else
      `${key}: ${value}`. */
  function RenderField(f: Field): string {
    match f
    case List(k, items) => Name(k) + ":\n" + Join(ItemLines(items), '\n')
    case Scalar(k, v) => if ':' in v then Name(k) + ": " + Json.Quote(v) else Name(k) + ": " + v
  }

  function ItemLines(items: seq<string>): (r: seq<string>)
    ensures |r| == |items| && forall k :: 0 <= k < |items| ==> r[k] == "  - " + Json.Quote(items[k])
  {
    if items == [] then [] else ["  - " + Json.Quote(items[0])] + ItemLines(items[1..])
  }

  function RenderAll(fs: seq<Field>): (r: seq<string>)
    ensures |r| == |fs| && forall k :: 0 <= k < |fs| ==> r[k] == RenderField(fs[k])
  {
    if fs == [] then [] else [RenderField(fs[0])] + RenderAll(fs[1..])
  }

  /** `serialiseChangelogEntry(r)` at the given clock readings. */
  function Serialise(r: Request, clock: Clock): string {
    "---\n" + Join(RenderAll(Fields(r, clock)), '\n') + "\n---" + "\n\n" + r.body
  }

  /** The keys come in the fixed order title, date, version, commitHash,
      updatedAt, tags, features, bugfixes; title and date always, the
      others exactly when their condition holds. */
  lemma {:induction false} FieldKeys(r: Request, clock: Clock)
    ensures Keys(Fields(r, clock)) == PresentKeys(r, AllKeys)
  {
    FieldsOfKeys(r, clock, AllKeys);
  }

  lemma {:induction false} FieldsOfKeys(r: Request, clock: Clock, ks: seq<Key>)
    ensures Keys(FieldsOf(r, clock, ks)) == PresentKeys(r, ks)
  {
    if ks != [] {
      KeysAppend(FieldFor(r, clock, ks[0]), FieldsOf(r, clock, ks[1..]));
      FieldForKey(r, clock, ks[0]);
      FieldsOfKeys(r, clock, ks[1..]);
    }
  }

  lemma FieldForKey(r: Request, clock: Clock, k: Key)
    ensures Keys(FieldFor(r, clock, k)) == if Present(r, k) then [k] else []
  {
  }

  lemma {:induction false} KeysAppend(a: seq<Field>, b: seq<Field>)
    ensures Keys(a + b) == Keys(a) + Keys(b)
  {
    if a != [] {
      assert (a + b)[1..] == a[1..] + b;
      KeysAppend(a[1..], b);
    } else {
      assert a + b == b;
    }
  }

  // ---------------------------------------------------------------------
  // The header regex `^---\s*\n([\s\S]*?)\n---\s*\n([\s\S]*)$`

  /** `^---\s*\n` matched up to position `e`. */
  predicate OpensAt(c: string, e: nat) {
    StartsWith(c, "---") && 4 <= e <= |c| && c[e - 1] == '\n' && AllSpace(c[3..e - 1])
  }

  /** `\n---\s*\n` matched from position `q` to position `f`. */
  predicate ClosesAt(c: string, q: nat, f: nat) {
    q + 5 <= f <= |c| && OccursAt(c, "\n---", q) && c[f - 1] == '\n' && AllSpace(c[q + 4..f - 1])
  }

  /** One way the regex can match: group 1 is `c[e..q]`, group 2 `c[f..]`. */
  predicate Shape(c: string, e: nat, q: nat, f: nat) {
    OpensAt(c, e) && e <= q && ClosesAt(c, q, f)
  }

  datatype Match = Match(e: nat, q: nat, f: nat)

  /** The backtracking order: the greedy `\s*` of the opening line tries
      the latest `e` first, the lazy group 1 the earliest `q`, the greedy
      `\s*` of the closing line the latest `f`. */
  predicate Preferred(m: Match, e: nat, q: nat, f: nat) {
    e < m.e || (e == m.e && (m.q < q || (m.q == q && f <= m.f)))
  }

  /** The end of the run of white space that starts at `i`. */
  function SpaceEnd(c: string, i: nat): (k: nat)
    requires i <= |c|
    ensures i <= k <= |c| && AllSpace(c[i..k]) && (k == |c| || !IsSpace(c[k]))
    decreases |c| - i
  {
    if i < |c| && IsSpace(c[i]) then
      var k := SpaceEnd(c, i + 1);
      assert c[i..k] == [c[i]] + c[i + 1..k];
      k
    else i
  }

  lemma {:induction false} SpaceBeforeEnd(c: string, i: nat, j: nat)
    requires i <= j < |c| && AllSpace(c[i..j]) && IsSpace(c[j])
    ensures j < SpaceEnd(c, i)
    decreases j - i
  {
    if i < j {
      assert IsSpace(c[i]) by {
        assert c[i..j][0] == c[i];
      }
      assert AllSpace(c[i + 1..j]) by {
        assert c[i + 1..j] == c[i..j][1..];
      }
      SpaceBeforeEnd(c, i + 1, j);
    }
  }

  /** The last newline in `c[i..k]`. */
  function LastNewline(c: string, i: nat, k: nat): (r: Option<nat>)
    requires i <= k <= |c|
    ensures r.Some? ==> i <= r.value < k && c[r.value] == '\n'
                        && forall p: nat :: r.value < p < k ==> c[p] != '\n'
    ensures r.None? ==> forall p: nat :: i <= p < k ==> c[p] != '\n'
    decreases k - i
  {
    if k == i then None else if c[k - 1] == '\n' then Some(k - 1) else LastNewline(c, i, k - 1)
  }

  /** The latest end of a closing line that starts at `q`. */
  function CloseEnd(c: string, q: nat): (r: Option<nat>)
    ensures r.Some? ==> ClosesAt(c, q, r.value) && forall f: nat :: ClosesAt(c, q, f) ==> f <= r.value
    ensures r.None? ==> forall f: nat :: !ClosesAt(c, q, f)
  {
    if !OccursAt(c, "\n---", q) then None
    else
      var k := SpaceEnd(c, q + 4);
      match LastNewline(c, q + 4, k)
      case None =>
        assert forall f: nat :: !ClosesAt(c, q, f) by {
          forall f: nat | ClosesAt(c, q, f) ensures false {
            SpaceBeforeEnd(c, q + 4, f - 1);
          }
        }
        None
      case Some(p) =>
        Sequences.TakeOfSlice(c, q + 4, k, p - q - 4);
        assert forall f: nat :: ClosesAt(c, q, f) ==> f <= p + 1 by {
          forall f: nat | ClosesAt(c, q, f) ensures f <= p + 1 {
            SpaceBeforeEnd(c, q + 4, f - 1);
          }
        }
        Some(p + 1)
  }

  /** The earliest closing line from position `q` on. */
  function FindClose(c: string, q: nat): (r: Option<(nat, nat)>)
    ensures r.Some? ==> q <= r.value.0 && ClosesAt(c, r.value.0, r.value.1)
                        && (forall f: nat :: ClosesAt(c, r.value.0, f) ==> f <= r.value.1)
                        && forall q': nat, f: nat :: q <= q' < r.value.0 ==> !ClosesAt(c, q', f)
    ensures r.None? ==> forall q': nat, f: nat :: q <= q' ==> !ClosesAt(c, q', f)
    decreases |c| - q
  {
    if q + 5 > |c| then None
    else match CloseEnd(c, q)
      case Some(f) => Some((q, f))
      case None => FindClose(c, q + 1)
  }

  /** Tries the openings that end at `j + 1`, `j`, ..., `4` in turn. */
  function TryOpen(c: string, j: nat): (r: Option<Match>)
    requires StartsWith(c, "---") && 3 <= j < |c|
    ensures r.Some? ==> Shape(c, r.value.e, r.value.q, r.value.f)
                        && forall e: nat, q: nat, f: nat :: e <= j + 1 && Shape(c, e, q, f) ==> Preferred(r.value, e, q, f)
    ensures r.None? ==> forall e: nat, q: nat, f: nat :: e <= j + 1 ==> !Shape(c, e, q, f)
    decreases j
  {
    var here := if c[j] == '\n' && AllSpace(c[3..j]) then FindClose(c, j + 1) else None;
    if here.Some? then Some(Match(j + 1, here.value.0, here.value.1))
    else if j == 3 then None
    else
      var r := TryOpen(c, j - 1);
      assert forall e: nat, q: nat, f: nat :: e == j + 1 ==> !Shape(c, e, q, f);
      r
  }

  /** `content.match(frontmatterRegex)`: the positions of the match. */
  function MatchFrontmatter(c: string): (r: Option<Match>)
    ensures r.Some? ==> Shape(c, r.value.e, r.value.q, r.value.f)
                        && forall e: nat, q: nat, f: nat :: Shape(c, e, q, f) ==> Preferred(r.value, e, q, f)
    ensures r.None? ==> forall e: nat, q: nat, f: nat :: !Shape(c, e, q, f)
  {
    if !StartsWith(c, "---") then None
    else
      var k := SpaceEnd(c, 3);
      assert forall e: nat, q: nat, f: nat :: Shape(c, e, q, f) ==> e <= k by {
        forall e: nat, q: nat, f: nat | Shape(c, e, q, f) ensures e <= k {
          SpaceBeforeEnd(c, 3, e - 1);
        }
      }
      if k == 3 then None else TryOpen(c, k - 1)
  }

  // ---------------------------------------------------------------------
  // Parsing

  datatype ParseError = MissingFrontmatter | MissingTitle | MissingDate | TagsNotList

  /** `filename.replace(/\.mdx?$/, "")`: one trailing `.mdx` or `.md`,
      in lower case, is removed. */
  function StripExtension(filename: string): (r: string)
    ensures StartsWith(filename, r)
    ensures filename[|r|..] == ".mdx" || filename[|r|..] == ".md" || filename[|r|..] == []
    ensures filename[|r|..] == [] ==> !EndsWith(filename, ".mdx") && !EndsWith(filename, ".md")
  {
    if EndsWith(filename, ".mdx") then filename[..|filename| - 4]
    else if EndsWith(filename, ".md") then filename[..|filename| - 3]
    else filename
  }

  predicate HasTruthy(fm: map<string, Value>, k: string) {
    k in fm && Truthy(fm[k])
  }

  /** The header map parsed from group 1 of a match. */
  function Header(c: string, m: Match): map<string, Value>
    requires m.e <= m.q <= |c|
  {
    ParseYaml(c[m.e..m.q])
  }

  /** `parseChangelogEntry(content, filename)`: the header map with
      `tags` normalised and `body`, `slug` and `filename` added. The
      checks come in the order: a header at all, a truthy `title`, a
      truthy `date`, `tags` a list if truthy. */
  function Parse(content: string, filename: string): (r: Result<map<string, Value>, ParseError>)
    ensures MatchFrontmatter(content).None? <==> r == Err(MissingFrontmatter)
    ensures MatchFrontmatter(content).Some? ==>
              var fm := Header(content, MatchFrontmatter(content).value);
              && (!HasTruthy(fm, "title") <==> r == Err(MissingTitle))
              && (HasTruthy(fm, "title") && !HasTruthy(fm, "date") <==> r == Err(MissingDate))
              && (r == Err(TagsNotList) <==> HasTruthy(fm, "title") && HasTruthy(fm, "date")
                                              && HasTruthy(fm, "tags") && !fm["tags"].VList?)
    ensures r.Ok? ==>
              (MatchFrontmatter(content).Some? &&
               var m := MatchFrontmatter(content).value;
               r.value == Entry(Header(content, m), Trim(content[m.f..]), filename))
  {
    match MatchFrontmatter(content)
    case None => Err(MissingFrontmatter)
    case Some(m) =>
      var fm := Header(content, m);
      if !HasTruthy(fm, "title") then Err(MissingTitle)
      else if !HasTruthy(fm, "date") then Err(MissingDate)
      else if HasTruthy(fm, "tags") && !fm["tags"].VList? then Err(TagsNotList)
      else Ok(Entry(fm, Trim(content[m.f..]), filename))
  }

  /** `frontmatter.tags = normaliseTags(frontmatter.tags)` when `tags`
      is a list. */
  function NormaliseTagsField(fm: map<string, Value>): (r: map<string, Value>)
    ensures r.Keys == fm.Keys
    ensures "tags" in fm && fm["tags"].VList? ==> r["tags"] == VList(Tags.NormaliseTags(fm["tags"].items))
    ensures forall k :: k in fm && k != "tags" ==> r[k] == fm[k]
  {
    if "tags" in fm && fm["tags"].VList? then fm["tags" := VList(Tags.NormaliseTags(fm["tags"].items))] else fm
  }

  /** `{ ...frontmatter, body, slug, filename }` with `tags`, when it is a
      list, normalised. */
  function Entry(fm: map<string, Value>, body: string, filename: string): (r: map<string, Value>)
    ensures r.Keys == fm.Keys + {"body", "slug", "filename"}
    ensures r["body"] == VStr(body) && r["slug"] == VStr(StripExtension(filename)) && r["filename"] == VStr(filename)
    ensures forall k :: k in fm && k != "body" && k != "slug" && k != "filename" ==> r[k] == NormaliseTagsField(fm)[k]
  {
    NormaliseTagsField(fm)["body" := VStr(body)]["slug" := VStr(StripExtension(filename))]["filename" := VStr(filename)]
  }
}
