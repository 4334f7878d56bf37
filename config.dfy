/**
 * `src/utils/github-config.ts`: the predefined tags and the home URL kept
 * in `chronalog/config.json`. Reading falls back to an empty list or to
 * `/`; saving cleans the new value and writes it over the same key of
 * whatever configuration was there, keeping every other key.
 *
 * The file's text and what `JSON.parse` makes of it are parameters:
 * `content` is what `getFileContent` returned (`""` when there is no
 * file) and `parsed` is `JSON.parse(content)`, `None` when it throws.
 * The configuration that is written is given as the object's fields,
 * before `JSON.stringify`.
 */
module GitHubConfig {
  import opened Wrappers
  import opened Strings
  import opened Sequences
  import opened Numbers
  import opened Json
  import opened GitHubUrl
  import Entry

  /** Why an operation gives up before it reaches the repository. */
  datatype ConfigError = NoRemote | UnparsableRemote

  /** The two checks every operation starts with: a remote is given and
      names a GitHub repository. */
  function CheckRemote(remote: string): (r: Option<ConfigError>)
    ensures r == None <==> remote != [] && ParseGitHubRepoFromUrl(remote).Some?
    ensures r == Some(NoRemote) <==> remote == []
  {
    if remote == [] then Some(NoRemote)
    else if ParseGitHubRepoFromUrl(remote).None? then Some(UnparsableRemote)
    else None
  }

  // ---------------------------------------------------------------------
  // Strings in a JSON list

  /** `items.filter((t) => typeof t === 'string')`, unwrapped. */
  function StringsOf(items: seq<Json>): (r: seq<string>)
    ensures |r| <= |items|
    ensures forall t :: t in r <==> JString(t) in items
  {
    if items == [] then []
    else
      var rest := StringsOf(items[1..]);
      assert items == [items[0]] + items[1..];
      if items[0].JString? then [items[0].s] + rest else rest
  }

  /** The JSON list holding the given strings. */
  function JsonStrings(ss: seq<string>): (r: seq<Json>)
    ensures |r| == |ss| && forall k :: 0 <= k < |ss| ==> r[k] == JString(ss[k])
  {
    seq(|ss|, k requires 0 <= k < |ss| => JString(ss[k]))
  }

  /** Filtering a concatenation filters each part: the kept strings keep
      their order and their multiplicity. */
  lemma {:induction false} StringsOfAppend(a: seq<Json>, b: seq<Json>)
    ensures StringsOf(a + b) == StringsOf(a) + StringsOf(b)
  {
    if a == [] {
      EmptyAppend(b);
    } else {
      TailOfAppend(a, b);
      StringsOfAppend(a[1..], b);
    }
  }

  /** One element: a string is kept, anything else is dropped. */
  lemma StringsOfOne(x: Json)
    ensures x.JString? ==> StringsOf([x]) == [x.s]
    ensures !x.JString? ==> StringsOf([x]) == []
  {
    assert [x][1..] == [];
  }

  /** Strings written to the file are read back in the same order. */
  lemma {:induction false} StringsOfStrings(ss: seq<string>)
    ensures StringsOf(JsonStrings(ss)) == ss
  {
    if ss != [] {
      assert JsonStrings(ss)[1..] == JsonStrings(ss[1..]);
      StringsOfStrings(ss[1..]);
    }
  }

  // ---------------------------------------------------------------------
  // Reading the tags

  /** The tags in a parsed configuration: a top-level list, or the list
      under `tags`; anything else holds none. */
  function TagsIn(data: Json): (r: seq<string>)
    ensures data.JArray? ==> r == StringsOf(data.items)
    ensures data.JObject? && "tags" in data.fields && data.fields["tags"].JArray? ==>
              r == StringsOf(data.fields["tags"].items)
    ensures !data.JArray? && !(data.JObject? && "tags" in data.fields && data.fields["tags"].JArray?) ==>
              r == []
  {
    match data
    case JArray(items) => StringsOf(items)
    case JObject(m) =>
      if "tags" in m && m["tags"].JArray? then StringsOf(m["tags"].items) else []
    case _ => []
  }

  /** `readPredefinedTagsViaGitHub`: a missing or empty file, or one
      `JSON.parse` rejects, holds no tags. */
  function ReadPredefinedTags(remote: string, content: string, parsed: Option<Json>)
    : (r: Result<seq<string>, ConfigError>)
    ensures r.Err? <==> CheckRemote(remote).Some?
    ensures r.Err? ==> r.error == CheckRemote(remote).value
    ensures r.Ok? && (content == [] || parsed.None?) ==> r.value == []
    ensures r.Ok? && content != [] && parsed.Some? ==> r.value == TagsIn(parsed.value)
  {
    match CheckRemote(remote)
    case Some(e) => Err(e)
    case None =>
      if content == [] then Ok([])
      else match parsed
        case None => Ok([])
        case Some(data) => Ok(TagsIn(data))
  }

  // ---------------------------------------------------------------------
  // The order `Array.prototype.sort` puts strings in

  /** `a` sorts before `b`, comparing character by character; a proper
      prefix sorts first. */
  predicate Less(a: string, b: string)
    decreases |a|
  {
    b != [] && (a == [] || a[0] < b[0] || (a[0] == b[0] && Less(a[1..], b[1..])))
  }

  lemma {:induction false} LessIrreflexive(a: string)
    ensures !Less(a, a)
  {
    if a != [] {
      LessIrreflexive(a[1..]);
    }
  }

  lemma {:induction false} LessAsymmetric(a: string, b: string)
    requires Less(a, b)
    ensures !Less(b, a)
  {
    if a != [] && a[0] == b[0] {
      LessAsymmetric(a[1..], b[1..]);
    }
  }

  lemma {:induction false} LessTotal(a: string, b: string)
    requires a != b
    ensures Less(a, b) || Less(b, a)
  {
    if a != [] && b != [] && a[0] == b[0] {
      assert a == [a[0]] + a[1..] && b == [b[0]] + b[1..];
      LessTotal(a[1..], b[1..]);
    }
  }

  lemma {:induction false} LessTransitive(a: string, b: string, c: string)
    requires Less(a, b) && Less(b, c)
    ensures Less(a, c)
  {
    if a != [] && a[0] == b[0] && b[0] == c[0] {
      LessTransitive(a[1..], b[1..], c[1..]);
    }
  }

  /** Sorting no earlier is transitive too. */
  lemma {:induction false} NotLessTransitive(a: string, b: string, c: string)
    requires !Less(b, a) && !Less(c, b)
    ensures !Less(c, a)
  {
    if a != [] && b != [] && c != [] && a[0] == b[0] && b[0] == c[0] {
      NotLessTransitive(a[1..], b[1..], c[1..]);
    }
  }

  /** No element sorts before one that comes earlier. */
  predicate Sorted(s: seq<string>) {
    forall i, j :: 0 <= i < j < |s| ==> !Less(s[j], s[i])
  }

  /** Each element sorts strictly before the ones after it. */
  predicate Increasing(s: seq<string>) {
    forall i, j :: 0 <= i < j < |s| ==> Less(s[i], s[j])
  }

  /** `x` placed before the first element that does not sort before it. */
  function Insert(x: string, s: seq<string>): (r: seq<string>)
    requires Sorted(s)
    ensures multiset(r) == multiset(s) + multiset{x}
    ensures Sorted(r)
  {
    if s == [] || !Less(s[0], x) then
      InsertFront(x, s);
      [x] + s
    else
      var t := Insert(x, s[1..]);
      InsertBehind(x, s, t);
      [s[0]] + t
  }

  /** `x` goes first when the first element does not sort before it. */
  lemma InsertFront(x: string, s: seq<string>)
    requires Sorted(s) && (s == [] || !Less(s[0], x))
    ensures Sorted([x] + s)
  {
    forall k | 0 <= k < |s| ensures !Less(s[k], x) {
      if k > 0 {
        NotLessTransitive(x, s[0], s[k]);
      }
    }
  }

  /** Otherwise the first element stays first, before the rest with `x`
      inserted. */
  lemma InsertBehind(x: string, s: seq<string>, t: seq<string>)
    requires Sorted(s) && s != [] && Less(s[0], x)
    requires Sorted(t) && multiset(t) == multiset(s[1..]) + multiset{x}
    ensures Sorted([s[0]] + t) && multiset([s[0]] + t) == multiset(s) + multiset{x}
  {
    var r := [s[0]] + t;
    assert s == [s[0]] + s[1..];
    forall k | 1 <= k < |r| ensures !Less(r[k], s[0]) {
      var y := r[k];
      assert y == t[k - 1];
      assert y in multiset(s[1..]) + multiset{x};
      if y == x {
        LessAsymmetric(s[0], x);
      } else {
        assert y in s[1..];
      }
    }
  }

  /** The result of `sort()`: the same strings in order. */
  function Sort(s: seq<string>): (r: seq<string>)
    ensures multiset(r) == multiset(s)
    ensures Sorted(r)
  {
    if s == [] then []
    else
      assert s == [s[0]] + s[1..];
      Insert(s[0], Sort(s[1..]))
  }

  /** A list in strictly increasing order is already sorted. */
  lemma {:induction false} SortIncreasing(s: seq<string>)
    requires Increasing(s)
    ensures Sort(s) == s
  {
    if s != [] {
      SortIncreasing(s[1..]);
      if |s| > 1 {
        LessAsymmetric(s[0], s[1]);
      }
      assert [s[0]] + s[1..] == s;
    }
  }

  // ---------------------------------------------------------------------
  // Saving the tags

  /** The tags `savePredefinedTagsViaGitHub` writes: the strings among
      `tags`, trimmed, without the blank ones, sorted, each kept once. */
  function CleanTags(tags: seq<Json>): seq<string>
  {
    KeepFirst(Sort(Entry.TrimAll(StringsOf(tags))))
  }

  /** Each saved tag is a trimmed non-blank string tag, each such tag is
      saved, and the saved list is strictly increasing, so there are no
      repeats. */
  lemma CleanTagsSpec(tags: seq<Json>)
    ensures var r := CleanTags(tags);
            && Increasing(r)
            && (forall k :: 0 <= k < |r| ==> r[k] != [] && Trimmed(r[k]))
            && (forall x :: x in r <==> x != [] && exists t :: JString(t) in tags && Trim(t) == x)
  {
    var ts := Entry.TrimAll(StringsOf(tags));
    var s := Sort(ts);
    var r := KeepFirst(s);
    forall i, j | 0 <= i < j < |r| ensures Less(r[i], r[j]) {
      KeepFirstOrder(s, i, j);
      var fi, fj := FirstIndex(s, r[i]), FirstIndex(s, r[j]);
      assert !Less(s[fj], s[fi]);
      LessTotal(r[i], r[j]);
    }
    forall k | 0 <= k < |r| ensures r[k] != [] && Trimmed(r[k]) {
      assert r[k] in multiset(s);
      var m :| 0 <= m < |ts| && ts[m] == r[k];
    }
    forall x ensures x in r <==> x != [] && exists t :: JString(t) in tags && Trim(t) == x {
      Entry.TrimAllMembers(StringsOf(tags), x);
      assert x in s <==> x in multiset(ts);
      if x in s {
        var m :| 0 <= m < |s| && s[m] == x;
      }
      if x in r {
        var m :| 0 <= m < |r| && r[m] == x;
      }
    }
  }

  /** Cleaning a saved list of tags again changes nothing. */
  lemma CleanTagsIdempotent(tags: seq<Json>)
    ensures CleanTags(JsonStrings(CleanTags(tags))) == CleanTags(tags)
  {
    var r := CleanTags(tags);
    CleanTagsSpec(tags);
    StringsOfStrings(r);
    TrimAllOfClean(r);
    SortIncreasing(r);
    forall i, j | 0 <= i < j < |r| ensures r[i] != r[j] {
      LessIrreflexive(r[i]);
    }
    KeepFirstOfDistinct(r);
  }

  lemma {:induction false} TrimAllOfClean(ss: seq<string>)
    requires forall k :: 0 <= k < |ss| ==> ss[k] != [] && Trimmed(ss[k])
    ensures Entry.TrimAll(ss) == ss
  {
    if ss != [] {
      TrimOfTrimmed(ss[0]);
      TrimAllOfClean(ss[1..]);
      assert [ss[0]] + ss[1..] == ss;
    }
  }

  /** `{...existing}`: the own enumerable properties of what was parsed.
      An object gives its fields, a list or a string its indices, and
      anything else nothing. */
  function Spread(j: Json): (r: map<string, Json>)
    ensures j.JObject? ==> r == j.fields
    ensures j.JArray? ==> forall i :: 0 <= i < |j.items| ==> NatToString(i) in r && r[NatToString(i)] == j.items[i]
    ensures j.JString? ==> forall i :: 0 <= i < |j.s| ==> NatToString(i) in r && r[NatToString(i)] == JString([j.s[i]])
    ensures !j.JObject? ==> forall k :: k in r ==> IsDigits(k)
  {
    match j
    case JObject(m) => m
    case JArray(items) =>
      IndicesDistinct();
      map i | 0 <= i < |items| :: NatToString(i) := items[i]
    case JString(s) =>
      IndicesDistinct();
      map i | 0 <= i < |s| :: NatToString(i) := JString([s[i]])
    case _ => map[]
  }

  lemma IndicesDistinct()
    ensures forall m: nat, n: nat :: NatToString(m) == NatToString(n) ==> m == n
  {
    forall m: nat, n: nat | NatToString(m) == NatToString(n) ensures m == n {
      NatToStringInjective(m, n);
    }
  }

  /** The configuration the new value is merged into: `{}` unless the file
      had content that `JSON.parse` accepted. */
  function Existing(content: string, parsed: Option<Json>): (r: map<string, Json>)
    ensures content == [] || parsed.None? ==> r == map[]
    ensures content != [] && parsed.Some? ==> r == Spread(parsed.value)
  {
    if content != [] && parsed.Some? then Spread(parsed.value) else map[]
  }

  /** `savePredefinedTagsViaGitHub`: the configuration it writes. */
  function SavePredefinedTags(tags: seq<Json>, remote: string, content: string, parsed: Option<Json>)
    : (r: Result<map<string, Json>, ConfigError>)
    ensures r.Err? <==> CheckRemote(remote).Some?
    ensures r.Err? ==> r.error == CheckRemote(remote).value
    ensures r.Ok? ==> "tags" in r.value && r.value["tags"] == JArray(JsonStrings(CleanTags(tags)))
    ensures r.Ok? ==> r.value.Keys == Existing(content, parsed).Keys + {"tags"}
    ensures r.Ok? ==> forall k :: k in Existing(content, parsed) && k != "tags" ==> r.value[k] == Existing(content, parsed)[k]
  {
    match CheckRemote(remote)
    case Some(e) => Err(e)
    case None => Ok(Existing(content, parsed)["tags" := JArray(JsonStrings(CleanTags(tags)))])
  }

  /** Reading the written configuration back gives the cleaned tags. */
  lemma SavedTagsReadBack(tags: seq<Json>, remote: string, content: string, parsed: Option<Json>, written: string)
    requires SavePredefinedTags(tags, remote, content, parsed).Ok?
    requires written != []
    ensures var saved := SavePredefinedTags(tags, remote, content, parsed).value;
            ReadPredefinedTags(remote, written, Some(JObject(saved))) == Ok(CleanTags(tags))
  {
    StringsOfStrings(CleanTags(tags));
  }

  // ---------------------------------------------------------------------
  // The home URL

  const DefaultHomeUrl: string := "/"

  /** The configuration is an object whose `homeUrl` is a string that is
      not blank. */
  predicate HasHomeUrl(data: Json) {
    data.JObject? && "homeUrl" in data.fields && data.fields["homeUrl"].JString?
    && Trim(data.fields["homeUrl"].s) != []
  }

  /** The home URL a parsed configuration names: its trimmed `homeUrl`
      string, or `/` when that is missing, not a string or blank. */
  function HomeUrlIn(data: Json): (r: string)
    ensures r != [] && Trimmed(r)
    ensures HasHomeUrl(data) ==> r == Trim(data.fields["homeUrl"].s)
    ensures !HasHomeUrl(data) ==> r == DefaultHomeUrl
  {
    if data.JObject? && "homeUrl" in data.fields && data.fields["homeUrl"].JString? then
      var t := Trim(data.fields["homeUrl"].s);
      TrimIdempotent(data.fields["homeUrl"].s);
      if t != [] then t else DefaultHomeUrl
    else DefaultHomeUrl
  }

  /** `readHomeUrlViaGitHub`: every failure, the missing remote included,
      gives `/`. */
  function ReadHomeUrl(remote: string, content: string, parsed: Option<Json>): (r: string)
    ensures r != [] && Trimmed(r)
    ensures CheckRemote(remote).Some? || content == [] || parsed.None? ==> r == DefaultHomeUrl
    ensures CheckRemote(remote).None? && content != [] && parsed.Some? ==> r == HomeUrlIn(parsed.value)
  {
    if CheckRemote(remote).Some? || content == [] then DefaultHomeUrl
    else match parsed
      case None => DefaultHomeUrl
      case Some(data) => HomeUrlIn(data)
  }

  /** The home URL `saveHomeUrlViaGitHub` writes: the trimmed string when
      it is not blank, `/` otherwise. */
  function ValidHomeUrl(homeUrl: Json): (r: string)
    ensures r != [] && Trimmed(r)
    ensures homeUrl.JString? && Trim(homeUrl.s) != [] ==> r == Trim(homeUrl.s)
    ensures !(homeUrl.JString? && Trim(homeUrl.s) != []) ==> r == DefaultHomeUrl
  {
    if homeUrl.JString? && Trim(homeUrl.s) != [] then
      TrimIdempotent(homeUrl.s);
      Trim(homeUrl.s)
    else DefaultHomeUrl
  }

  /** `saveHomeUrlViaGitHub`: the configuration it writes. */
  function SaveHomeUrl(homeUrl: Json, remote: string, content: string, parsed: Option<Json>)
    : (r: Result<map<string, Json>, ConfigError>)
    ensures r.Err? <==> CheckRemote(remote).Some?
    ensures r.Err? ==> r.error == CheckRemote(remote).value
    ensures r.Ok? ==> "homeUrl" in r.value && r.value["homeUrl"] == JString(ValidHomeUrl(homeUrl))
    ensures r.Ok? ==> r.value.Keys == Existing(content, parsed).Keys + {"homeUrl"}
    ensures r.Ok? ==> forall k :: k in Existing(content, parsed) && k != "homeUrl" ==> r.value[k] == Existing(content, parsed)[k]
  {
    match CheckRemote(remote)
    case Some(e) => Err(e)
    case None => Ok(Existing(content, parsed)["homeUrl" := JString(ValidHomeUrl(homeUrl))])
  }

  /** Reading the written configuration back gives the saved home URL. */
  lemma SavedHomeUrlReadBack(homeUrl: Json, remote: string, content: string, parsed: Option<Json>, written: string)
    requires SaveHomeUrl(homeUrl, remote, content, parsed).Ok?
    requires written != []
    ensures var saved := SaveHomeUrl(homeUrl, remote, content, parsed).value;
            ReadHomeUrl(remote, written, Some(JObject(saved))) == ValidHomeUrl(homeUrl)
  {
    TrimOfTrimmed(ValidHomeUrl(homeUrl));
  }

  /** A home URL that was read is saved as it is. */
  lemma ReadHomeUrlSavesUnchanged(data: Json)
    ensures ValidHomeUrl(JString(HomeUrlIn(data))) == HomeUrlIn(data)
  {
    TrimOfTrimmed(HomeUrlIn(data));
  }

  /** Saving one key leaves the other one as it was: the tags survive a
      home URL save. */
  lemma HomeUrlSaveKeepsTags(homeUrl: Json, remote: string, data: Json, written: string)
    requires CheckRemote(remote).None? && written != [] && data.JObject?
    ensures var saved := SaveHomeUrl(homeUrl, remote, written, Some(data)).value;
            TagsIn(JObject(saved)) == TagsIn(data)
  {
  }
}
