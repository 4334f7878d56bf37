/**
 * Reading back what the serialiser writes: for a request whose texts
 * survive the trip (no quote, backslash or control character, and
 * scalars that read back as strings), `parseChangelogEntry` applied to
 * `serialiseChangelogEntry` gives back the header fields, the tags
 * normalised, the feature and bugfix lists trimmed, and the body trimmed.
 */
module RoundTrip {
  import opened Wrappers
  import opened Strings
  import opened Sequences
  import Json
  import Tags
  import opened Frontmatter
  import opened Entry

  // ---------------------------------------------------------------------
  // Texts that survive the trip

  /** Nothing `JSON.stringify` would escape. */
  predicate PlainText(s: string) {
    forall i :: 0 <= i < |s| ==> !Json.NeedsEscape(s[i])
  }

  /** A scalar the parser reads back as the same string: plain, not
      empty, no white space at the ends, not `[]`, not wrapped in single
      quotes, and not `true`, `false`, `null` or a number. */
  predicate PlainScalar(s: string) {
    s != [] && Trimmed(s) && PlainText(s) && s != "[]"
    && !(s[0] == '\'' && s[|s| - 1] == '\'') && Coerce(s).VStr?
  }

  /** What the round trip asks of a request and the clock readings. */
  predicate Safe(r: Request, clock: Clock) {
    && PlainScalar(r.title)
    && PlainScalar(EffectiveDate(r, clock))
    && (r.version == [] || PlainScalar(r.version))
    && (r.commitHash == [] || PlainScalar(r.commitHash))
    && (r.slug == [] || PlainScalar(clock.stamp))
    && (forall i :: 0 <= i < |r.tags| ==> PlainText(r.tags[i]))
    && (forall i :: 0 <= i < |r.features| ==> PlainText(r.features[i]))
    && (forall i :: 0 <= i < |r.bugfixes| ==> PlainText(r.bugfixes[i]))
  }

  // ---------------------------------------------------------------------
  // The header keys

  function Sig(k: Key): (char, nat) {
    match k
    case Title => ('t', 5)
    case Date => ('d', 4)
    case Version => ('v', 7)
    case CommitHash => ('c', 10)
    case UpdatedAt => ('u', 9)
    case TagsKey => ('t', 4)
    case Features => ('f', 8)
    case Bugfixes => ('b', 8)
  }

  lemma NameFacts(k: Key)
    ensures Name(k) != [] && Sig(k) == (Name(k)[0], |Name(k)|)
    ensures GoodKey(Name(k)) && '\n' !in Name(k)
  {
  }

  lemma NameInjective(k1: Key, k2: Key)
    ensures Name(k1) == Name(k2) ==> k1 == k2
  {
    NameFacts(k1);
    NameFacts(k2);
  }

  lemma NamesInjective()
    ensures forall k1, k2 :: Name(k1) == Name(k2) ==> k1 == k2
  {
    forall k1, k2 ensures Name(k1) == Name(k2) ==> k1 == k2 {
      NameInjective(k1, k2);
    }
  }

  // ---------------------------------------------------------------------
  // Physical lines

  /** A line of the header as the parser sees it: no newline, and not
      starting with `-`. */
  predicate LineOk(l: string) {
    '\n' !in l && (l == [] || l[0] != '-')
  }

  /** The lines a field is written as. An empty list leaves an empty line
      behind its `key:` line. */
  function Phys(f: Field): (ls: seq<string>)
    ensures |ls| >= 1
  {
    match f
    case Scalar(_, _) => [RenderField(f)]
    case List(k, items) => if items == [] then [Name(k) + ":", ""] else [Name(k) + ":"] + ItemLines(items)
  }

  function AllPhys(fs: seq<Field>): seq<string> {
    if fs == [] then [] else Phys(fs[0]) + AllPhys(fs[1..])
  }

  lemma RenderPhys(f: Field)
    ensures RenderField(f) == Join(Phys(f), '\n')
  {
    match f
    case Scalar(_, _) =>
    case List(k, items) =>
      var h := Name(k) + ":";
      if items == [] {
        assert [h, ""][1..] == [""];
      } else {
        JoinAppend([h], ItemLines(items), '\n');
      }
  }

  lemma {:induction false} JoinRenderAll(fs: seq<Field>)
    requires fs != []
    ensures Join(RenderAll(fs), '\n') == Join(AllPhys(fs), '\n')
  {
    RenderPhys(fs[0]);
    if |fs| == 1 {
      assert AllPhys(fs[1..]) == [];
      assert Phys(fs[0]) + [] == Phys(fs[0]);
    } else {
      JoinRenderAll(fs[1..]);
      assert RenderAll(fs)[1..] == RenderAll(fs[1..]);
      assert AllPhys(fs[1..]) == Phys(fs[1]) + AllPhys(fs[2..]);
      JoinAppend(Phys(fs[0]), AllPhys(fs[1..]), '\n');
    }
  }

  /** In `s`, no newline is followed by `-`. */
  predicate NoDash(s: string) {
    forall i :: 0 <= i < |s| - 1 && s[i] == '\n' ==> s[i + 1] != '-'
  }

  lemma {:induction false} JoinHead(ls: seq<string>)
    requires |ls| >= 1 && Join(ls, '\n') != []
    ensures var y := Join(ls, '\n'); y[0] == '\n' || (ls[0] != [] && y[0] == ls[0][0])
  {
  }

  lemma {:induction false} JoinNoDash(ls: seq<string>)
    requires forall k :: 0 <= k < |ls| ==> LineOk(ls[k])
    ensures NoDash(Join(ls, '\n'))
  {
    if |ls| > 1 {
      var a, rest := ls[0], Join(ls[1..], '\n');
      JoinNoDash(ls[1..]);
      var y := a + ['\n'] + rest;
      assert Join(ls, '\n') == y;
      if rest != [] {
        JoinHead(ls[1..]);
        assert ls[1..][0] == ls[1];
      }
      forall i | 0 <= i < |y| - 1 && y[i] == '\n' ensures y[i + 1] != '-' {
        if i > |a| {
          assert y[i] == rest[i - |a| - 1] && y[i + 1] == rest[i - |a|];
        }
      }
    }
  }

  lemma {:induction false} JoinNoNewline(ls: seq<string>)
    requires forall k :: 0 <= k < |ls| ==> LineOk(ls[k])
    requires |ls| >= 1
    ensures Split(Join(ls, '\n'), '\n') == ls
  {
    SplitJoin(ls, '\n');
  }

  // ---------------------------------------------------------------------
  // Where the header regex matches a serialised document

  /** The document `---\n<y>\n---\n\n<b>` as the serialiser writes it. */
  function Document(y: string, b: string): string {
    "---\n" + y + "\n---" + "\n\n" + b
  }

  /** No closing line starts inside the header text. */
  lemma NoCloseBefore(y: string, b: string, j: nat)
    requires NoDash(y) && 4 <= j < 4 + |y|
    ensures !OccursAt(Document(y, b), "\n---", j)
  {
    var c := Document(y, b);
    assert c[j] == y[j - 4];
    if j + 1 < 4 + |y| {
      assert c[j + 1] == y[j - 3];
    } else {
      assert c[j + 1] == '\n';
    }
    assert j + 4 <= |c| ==> c[j..j + 4][0] == c[j] && c[j..j + 4][1] == c[j + 1];
  }

  /** The opening line is `---` and the newline right after it. */
  lemma OpensOnlyAtFour(y: string, b: string, e: nat)
    requires y != [] && !IsSpace(y[0]) && OpensAt(Document(y, b), e)
    ensures e == 4
  {
    var c := Document(y, b);
    assert c[4] == y[0];
  }

  lemma DocumentShape(y: string, b: string)
    ensures Shape(Document(y, b), 4, 4 + |y|, 9 + |y|)
  {
    var c := Document(y, b);
    var q := 4 + |y|;
    assert c[..3] == "---" && c[3] == '\n';
    assert c[q..q + 4] == "\n---" && c[q + 4] == '\n';
    assert c[3..3] == [] && c[q + 4..q + 4] == [];
  }

  /** For a header text that starts with a non-space character and has
      no line starting with `-`, the regex takes the whole of it as
      group 1 and the body, trimmed, is `b` trimmed. */
  lemma MatchDocument(y: string, b: string)
    requires y != [] && !IsSpace(y[0]) && NoDash(y)
    ensures var c := Document(y, b);
            var m := MatchFrontmatter(c);
            && m.Some? && m.value.e == 4 && m.value.q == 4 + |y|
            && c[4..4 + |y|] == y && Trim(c[m.value.f..]) == Trim(b)
  {
    var c := Document(y, b);
    var q := 4 + |y|;
    DocumentShape(y, b);
    var m := MatchFrontmatter(c).value;
    OpensOnlyAtFour(y, b, m.e);
    if m.q < q {
      NoCloseBefore(y, b, m.q);
    }
    assert c[4..q] == y;
    var w := c[q + 4..m.f];
    assert AllSpace(w) by {
      assert w == c[q + 4..m.f - 1] + [c[m.f - 1]];
    }
    assert c[q + 4..] == w + c[m.f..];
    assert c[q + 4..] == "\n\n" + b;
    TrimPadded(w, c[m.f..]);
    TrimPadded("\n\n", b);
  }

  // ---------------------------------------------------------------------
  // The parser reading the lines of the fields

  /** A field whose texts survive the trip. */
  predicate FieldOk(f: Field) {
    match f
    case Scalar(_, v) => PlainScalar(v)
    case List(_, items) => forall i :: 0 <= i < |items| ==> PlainText(items[i])
  }

  /** What reading back one field does to the map: a list with no items
      is not stored. */
  function ApplyField(m: map<string, Value>, f: Field): map<string, Value> {
    match f
    case Scalar(k, v) => m[Name(k) := VStr(v)]
    case List(k, items) => if items == [] then m else m[Name(k) := VList(items)]
  }

  function FoldFields(m: map<string, Value>, fs: seq<Field>): map<string, Value>
    decreases |fs|
  {
    if fs == [] then m else FoldFields(ApplyField(m, fs[0]), fs[1..])
  }

  /** No items are collected without a current key. */
  predicate Settled(st: State) {
    st.key != [] || st.items == []
  }

  lemma PlainNoNewline(s: string)
    requires PlainText(s)
    ensures '\n' !in s && '"' !in s
  {
    assert forall i :: 0 <= i < |s| ==> s[i] != '\n' && s[i] != '"' by {
      assert !Json.NeedsEscape('\n') == false;
    }
  }

  lemma ScalarRun(st: State, k: Key, v: string)
    requires Settled(st) && PlainScalar(v)
    ensures var s := Step(st, RenderField(Scalar(k, v)));
            Settled(s) && Finish(s) == Finish(st)[Name(k) := VStr(v)]
  {
    NameFacts(k);
    PlainNoNewline(v);
    if ':' in v {
      Json.QuotePlain(v);
      var w := Json.Quote(v);
      assert w[0] == '"' && w[|w| - 1] == '"';
      ScalarLineStep(st, Name(k), w);
      StripQuotesQuoted(v);
    } else {
      StripQuotesUnwrapped(v);
      ScalarLineStep(st, Name(k), v);
    }
  }

  lemma ItemsRun(st: State, items: seq<string>)
    requires st.key != [] && st.inArray
    requires forall i :: 0 <= i < |items| ==> PlainText(items[i])
    ensures RunFrom(st, ItemLines(items)) == st.(items := st.items + items)
  {
    var ls := ItemLines(items);
    forall s: State, i | 0 <= i < |ls| && s.key != [] && s.inArray
      ensures Step(s, ls[i]) == s.(items := s.items + [items[i]])
    {
      PlainItemStep(s, items[i]);
    }
    RunAdds(st, ls, items, |ls|);
    TakeAll(ls);
    TakeAll(items);
  }

  /** Lines that each add their item, in list mode, add all of them. */
  lemma {:induction false} RunAdds(st: State, ls: seq<string>, items: seq<string>, n: nat)
    requires st.key != [] && st.inArray && |ls| == |items| && n <= |ls|
    requires forall s: State, i :: 0 <= i < |ls| && s.key != [] && s.inArray
               ==> Step(s, ls[i]) == s.(items := s.items + [items[i]])
    ensures RunFrom(st, ls[..n]) == st.(items := st.items + items[..n])
    decreases n
  {
    if n == 0 {
      assert st.items + items[..0] == st.items;
    } else {
      RunAdds(st, ls, items, n - 1);
      RunLast(st, ls, n);
      var s' := RunFrom(st, ls[..n - 1]);
      assert s'.key == st.key && s'.inArray;
      assert Step(s', ls[n - 1]) == s'.(items := s'.items + [items[n - 1]]);
      Sequences.TakeSnoc(items, n);
      AddOne(s', st, ls[n - 1], items[..n - 1], items[n - 1], items[..n]);
    }
  }

  lemma AddOne(s: State, st: State, l: string, p: seq<string>, x: string, q: seq<string>)
    requires s == st.(items := st.items + p) && q == p + [x]
    requires Step(s, l) == s.(items := s.items + [x])
    ensures Step(s, l) == st.(items := st.items + q)
  {
  }

  /** One plain item line adds the item itself. */
  lemma PlainItemStep(st: State, x: string)
    requires st.key != [] && st.inArray && PlainText(x)
    ensures Step(st, "  - " + Json.Quote(x)) == st.(items := st.items + [x])
  {
    ItemLineStep(st, x);
    Json.QuotePlain(x);
  }

  lemma ListRun(st: State, k: Key, items: seq<string>)
    requires Settled(st)
    requires forall i :: 0 <= i < |items| ==> PlainText(items[i])
    ensures var s := RunFrom(st, Phys(List(k, items)));
            Settled(s) && Finish(s) == ApplyField(Finish(st), List(k, items))
  {
    NameFacts(k);
    var h := Name(k) + ":";
    HeaderLineStep(st, Name(k));
    RunOne(st, h);
    if items == [] {
      RunBlankAfter(st, h);
    } else {
      RunFromAppend(st, [h], ItemLines(items));
      ItemsRun(Step(st, h), items);
      EmptyAppend(items);
    }
  }

  /** A run over one line is one step. */
  lemma RunOne(st: State, l: string)
    ensures RunFrom(st, [l]) == Step(st, l)
  {
    TakeNone([l]);
  }

  /** A blank line after `l` changes nothing. */
  lemma RunBlankAfter(st: State, l: string)
    ensures RunFrom(st, [l, ""]) == Step(st, l)
  {
    FirstOfPair(l, "");
    RunOne(st, l);
  }

  lemma FieldRun(st: State, f: Field)
    requires Settled(st) && FieldOk(f)
    ensures var s := RunFrom(st, Phys(f));
            Settled(s) && Finish(s) == ApplyField(Finish(st), f)
  {
    match f
    case Scalar(k, v) =>
      ScalarRun(st, k, v);
      assert [RenderField(f)][..0] == [];
    case List(k, items) =>
      ListRun(st, k, items);
  }

  lemma {:induction false} FieldsRun(st: State, fs: seq<Field>)
    requires Settled(st)
    requires forall i :: 0 <= i < |fs| ==> FieldOk(fs[i])
    ensures var s := RunFrom(st, AllPhys(fs));
            Settled(s) && Finish(s) == FoldFields(Finish(st), fs)
    decreases |fs|
  {
    if fs != [] {
      assert AllPhys(fs) == Phys(fs[0]) + AllPhys(fs[1..]);
      RunFromAppend(st, Phys(fs[0]), AllPhys(fs[1..]));
      FieldRun(st, fs[0]);
      var s1 := RunFrom(st, Phys(fs[0]));
      assert Settled(s1);
      var rest := fs[1..];
      assert forall i :: 0 <= i < |rest| ==> FieldOk(rest[i]);
      FieldsRun(s1, rest);
      assert FoldFields(Finish(st), fs) == FoldFields(Finish(s1), fs[1..]);
    }
  }

  // ---------------------------------------------------------------------
  // The lines of plain fields

  lemma PhysLinesOk(f: Field)
    requires FieldOk(f)
    ensures forall i :: 0 <= i < |Phys(f)| ==> LineOk(Phys(f)[i])
  {
    NameFacts(f.key);
    match f
    case Scalar(k, v) =>
      PlainNoNewline(v);
      Json.QuotePlain(v);
    case List(k, items) =>
      forall i | 0 <= i < |items| ensures LineOk("  - " + Json.Quote(items[i])) {
        PlainNoNewline(items[i]);
        Json.QuotePlain(items[i]);
      }
  }

  lemma {:induction false} AllPhysOk(fs: seq<Field>)
    requires forall i :: 0 <= i < |fs| ==> FieldOk(fs[i])
    ensures forall i :: 0 <= i < |AllPhys(fs)| ==> LineOk(AllPhys(fs)[i])
  {
    if fs != [] {
      PhysLinesOk(fs[0]);
      var rest := fs[1..];
      assert forall i :: 0 <= i < |rest| ==> FieldOk(rest[i]);
      AllPhysOk(rest);
      LinesOkAppend(Phys(fs[0]), AllPhys(rest));
    }
  }

  lemma LinesOkAppend(a: seq<string>, b: seq<string>)
    requires forall i :: 0 <= i < |a| ==> LineOk(a[i])
    requires forall i :: 0 <= i < |b| ==> LineOk(b[i])
    ensures forall i :: 0 <= i < |a + b| ==> LineOk((a + b)[i])
  {
    assert forall i :: |a| <= i < |a + b| ==> (a + b)[i] == b[i - |a|];
  }

  lemma JoinFirst(ls: seq<string>)
    requires |ls| >= 1 && ls[0] != []
    ensures Join(ls, '\n') != [] && Join(ls, '\n')[0] == ls[0][0]
  {
  }

  // ---------------------------------------------------------------------
  // Plain texts stay plain

  lemma PlainTrim(s: string)
    requires PlainText(s)
    ensures PlainText(Trim(s))
  {
    var a, b := TrimSlice(s);
  }

  lemma PlainClean(t: string)
    requires PlainText(t)
    ensures PlainText(Tags.CleanTag(t))
  {
    PlainTrim(t);
  }

  lemma PlainNormalised(tags: seq<string>)
    requires forall i :: 0 <= i < |tags| ==> PlainText(tags[i])
    ensures forall i :: 0 <= i < |Tags.NormaliseTags(tags)| ==> PlainText(Tags.NormaliseTags(tags)[i])
  {
    var n := Tags.NormaliseTags(tags);
    forall i | 0 <= i < |n| ensures PlainText(n[i]) {
      Tags.NormaliseTagsMembers(tags, n[i]);
      var k :| 0 <= k < |tags| && Tags.CleanTag(tags[k]) == n[i];
      PlainClean(tags[k]);
    }
  }

  lemma {:induction false} PlainTrimAll(xs: seq<string>)
    requires forall i :: 0 <= i < |xs| ==> PlainText(xs[i])
    ensures forall i :: 0 <= i < |TrimAll(xs)| ==> PlainText(TrimAll(xs)[i])
  {
    if xs != [] {
      PlainTrim(xs[0]);
      PlainTrimAll(xs[1..]);
    }
  }

  lemma FieldForOk(r: Request, clock: Clock, k: Key)
    requires Safe(r, clock)
    ensures forall i :: 0 <= i < |FieldFor(r, clock, k)| ==> FieldOk(FieldFor(r, clock, k)[i])
  {
    match k
    case TagsKey => PlainNormalised(r.tags);
    case Features => PlainTrimAll(r.features);
    case Bugfixes => PlainTrimAll(r.bugfixes);
    case _ =>
  }

  lemma FieldsOkAppend(a: seq<Field>, b: seq<Field>)
    requires forall i :: 0 <= i < |a| ==> FieldOk(a[i])
    requires forall i :: 0 <= i < |b| ==> FieldOk(b[i])
    ensures forall i :: 0 <= i < |a + b| ==> FieldOk((a + b)[i])
  {
    assert forall i :: |a| <= i < |a + b| ==> (a + b)[i] == b[i - |a|];
  }

  lemma {:induction false} FieldsOfOk(r: Request, clock: Clock, ks: seq<Key>)
    requires Safe(r, clock)
    ensures forall i :: 0 <= i < |FieldsOf(r, clock, ks)| ==> FieldOk(FieldsOf(r, clock, ks)[i])
  {
    if ks != [] {
      FieldForOk(r, clock, ks[0]);
      FieldsOfOk(r, clock, ks[1..]);
      FieldsOkAppend(FieldFor(r, clock, ks[0]), FieldsOf(r, clock, ks[1..]));
    }
  }

  // ---------------------------------------------------------------------
  // The header map read back

  /** Whether the header read back holds the key: an empty list is
      written but not read back. */
  predicate Stored(r: Request, k: Key) {
    match k
    case Features => TrimAll(r.features) != []
    case Bugfixes => TrimAll(r.bugfixes) != []
    case _ => Present(r, k)
  }

  /** The value read back for a stored key. */
  function ValueFor(r: Request, clock: Clock, k: Key): Value {
    match k
    case Title => VStr(r.title)
    case Date => VStr(EffectiveDate(r, clock))
    case Version => VStr(r.version)
    case CommitHash => VStr(r.commitHash)
    case UpdatedAt => VStr(clock.stamp)
    case TagsKey => VList(Tags.NormaliseTags(r.tags))
    case Features => VList(TrimAll(r.features))
    case Bugfixes => VList(TrimAll(r.bugfixes))
  }

  function ApplyKey(r: Request, clock: Clock, m: map<string, Value>, k: Key): map<string, Value> {
    if Stored(r, k) then m[Name(k) := ValueFor(r, clock, k)] else m
  }

  function FoldKeys(r: Request, clock: Clock, m: map<string, Value>, ks: seq<Key>): map<string, Value>
    decreases |ks|
  {
    if ks == [] then m else FoldKeys(r, clock, ApplyKey(r, clock, m, ks[0]), ks[1..])
  }

  lemma FoldFieldFor(r: Request, clock: Clock, m: map<string, Value>, k: Key)
    ensures FoldFields(m, FieldFor(r, clock, k)) == ApplyKey(r, clock, m, k)
  {
    match k
    case Title => FoldOne(m, Scalar(Title, r.title));
    case Date => FoldOne(m, Scalar(Date, EffectiveDate(r, clock)));
    case Version => FoldOne(m, Scalar(Version, r.version));
    case CommitHash => FoldOne(m, Scalar(CommitHash, r.commitHash));
    case UpdatedAt => FoldOne(m, Scalar(UpdatedAt, clock.stamp));
    case TagsKey => FoldOne(m, List(TagsKey, Tags.NormaliseTags(r.tags)));
    case Features => FoldOne(m, List(Features, TrimAll(r.features)));
    case Bugfixes => FoldOne(m, List(Bugfixes, TrimAll(r.bugfixes)));
  }

  lemma FoldOne(m: map<string, Value>, f: Field)
    ensures FoldFields(m, [f]) == ApplyField(m, f)
  {
    assert [f][1..] == [];
  }

  lemma {:induction false} FoldFieldsAppend(m: map<string, Value>, a: seq<Field>, b: seq<Field>)
    ensures FoldFields(m, a + b) == FoldFields(FoldFields(m, a), b)
    decreases |a|
  {
    if a == [] {
      assert a + b == b;
    } else {
      assert (a + b)[1..] == a[1..] + b;
      FoldFieldsAppend(ApplyField(m, a[0]), a[1..], b);
    }
  }

  lemma {:induction false} FoldFieldsOf(r: Request, clock: Clock, m: map<string, Value>, ks: seq<Key>)
    ensures FoldFields(m, FieldsOf(r, clock, ks)) == FoldKeys(r, clock, m, ks)
    decreases |ks|
  {
    if ks != [] {
      FoldFieldsAppend(m, FieldFor(r, clock, ks[0]), FieldsOf(r, clock, ks[1..]));
      FoldFieldFor(r, clock, m, ks[0]);
      FoldFieldsOf(r, clock, ApplyKey(r, clock, m, ks[0]), ks[1..]);
    }
  }

  /** Folding in keys: a stored key gets its value, whatever came before. */
  lemma {:induction false} FoldKeysAt(r: Request, clock: Clock, m: map<string, Value>, ks: seq<Key>, k: Key)
    ensures Name(k) in FoldKeys(r, clock, m, ks) <==> Name(k) in m || (k in ks && Stored(r, k))
    ensures k in ks && Stored(r, k) ==> FoldKeys(r, clock, m, ks)[Name(k)] == ValueFor(r, clock, k)
    ensures !(k in ks && Stored(r, k)) && Name(k) in m ==> FoldKeys(r, clock, m, ks)[Name(k)] == m[Name(k)]
    decreases |ks|
  {
    if ks != [] {
      var m' := ApplyKey(r, clock, m, ks[0]);
      NameInjective(ks[0], k);
      FoldKeysAt(r, clock, m', ks[1..], k);
      assert k in ks <==> k == ks[0] || k in ks[1..];
    }
  }

  /** Folding in keys adds no name that is not a stored key's. */
  lemma {:induction false} FoldKeysDomain(r: Request, clock: Clock, m: map<string, Value>, ks: seq<Key>, x: string)
    requires x in FoldKeys(r, clock, m, ks)
    ensures x in m || exists k :: k in ks && Stored(r, k) && Name(k) == x
    decreases |ks|
  {
    if ks != [] {
      var m' := ApplyKey(r, clock, m, ks[0]);
      FoldKeysDomain(r, clock, m', ks[1..], x);
      if exists k :: k in ks[1..] && Stored(r, k) && Name(k) == x {
        var k :| k in ks[1..] && Stored(r, k) && Name(k) == x;
        assert k in ks;
      }
    }
  }

  lemma EveryKey(k: Key)
    ensures k in AllKeys
  {
  }

  /** The header map `parseYamlFrontmatter` gives back for a request. */
  function ExpectedHeader(r: Request, clock: Clock): map<string, Value> {
    FoldKeys(r, clock, map[], AllKeys)
  }

  /** A key's name is in the header exactly when the key is stored, and
      then it holds that key's value. */
  lemma ExpectedHeaderAt(r: Request, clock: Clock, k: Key)
    ensures Name(k) in ExpectedHeader(r, clock) <==> Stored(r, k)
    ensures Stored(r, k) ==> ExpectedHeader(r, clock)[Name(k)] == ValueFor(r, clock, k)
  {
    EveryKey(k);
    FoldKeysAt(r, clock, map[], AllKeys, k);
  }

  /** The header holds exactly the names of the stored keys, each with
      its value, and nothing else. */
  lemma ExpectedHeaderSpec(r: Request, clock: Clock)
    ensures var h := ExpectedHeader(r, clock);
            && (forall k: Key :: Name(k) in h <==> Stored(r, k))
            && (forall k: Key :: Stored(r, k) ==> h[Name(k)] == ValueFor(r, clock, k))
            && h.Keys <= KeyNames
  {
    var h := ExpectedHeader(r, clock);
    forall k: Key ensures (Name(k) in h <==> Stored(r, k)) && (Stored(r, k) ==> h[Name(k)] == ValueFor(r, clock, k)) {
      ExpectedHeaderAt(r, clock, k);
    }
    forall x | x in h ensures x in KeyNames {
      FoldKeysDomain(r, clock, map[], AllKeys, x);
      var k :| k in AllKeys && Stored(r, k) && Name(k) == x;
      NameInKeyNames(k);
    }
  }

  // ---------------------------------------------------------------------
  // The round trip

  /** The header text the serialiser writes reads back as the expected
      header map, and its lines fit the regex. */
  lemma HeaderReadBack(r: Request, clock: Clock)
    requires Safe(r, clock)
    ensures var y := Join(RenderAll(Fields(r, clock)), '\n');
            y != [] && !IsSpace(y[0]) && NoDash(y) && ParseYaml(y) == ExpectedHeader(r, clock)
  {
    var fs := Fields(r, clock);
    FieldsOfOk(r, clock, AllKeys);
    var ls := AllPhys(fs);
    AllPhysOk(fs);
    JoinRenderAll(fs);
    var y := Join(ls, '\n');
    assert fs[0] == Scalar(Title, r.title);
    assert ls[0] == RenderField(fs[0]);
    NameFacts(Title);
    assert ls[0][0] == 't';
    JoinFirst(ls);
    JoinNoDash(ls);
    SplitJoin(ls, '\n');
    FieldsRun(Init, fs);
    FoldFieldsOf(r, clock, map[], AllKeys);
  }

  lemma SameUpdate(h: map<string, Value>, x: string)
    requires x in h
    ensures h[x := h[x]] == h
  {
  }

  /** The title and date checks of the parser pass. */
  lemma ExpectedTitleDate(r: Request, clock: Clock)
    requires r.title != [] && EffectiveDate(r, clock) != []
    ensures HasTruthy(ExpectedHeader(r, clock), "title") && HasTruthy(ExpectedHeader(r, clock), "date")
  {
    ExpectedHeaderAt(r, clock, Title);
    ExpectedHeaderAt(r, clock, Date);
    TitleDateValues(r, clock);
    TitleDateOfHeader(ExpectedHeader(r, clock), r.title, EffectiveDate(r, clock));
  }

  lemma TitleDateValues(r: Request, clock: Clock)
    ensures Stored(r, Title) && ValueFor(r, clock, Title) == VStr(r.title)
    ensures Stored(r, Date) && ValueFor(r, clock, Date) == VStr(EffectiveDate(r, clock))
  {
  }

  lemma TitleDateOfHeader(h: map<string, Value>, title: string, date: string)
    requires title != [] && date != []
    requires Name(Title) in h && h[Name(Title)] == VStr(title)
    requires Name(Date) in h && h[Name(Date)] == VStr(date)
    ensures HasTruthy(h, "title") && HasTruthy(h, "date")
  {
    assert Name(Title) == "title" && Name(Date) == "date";
  }

  /** `tags`, when present, is a list and already normalised. */
  lemma ExpectedTags(r: Request, clock: Clock)
    ensures var h := ExpectedHeader(r, clock);
            ("tags" in h ==> h["tags"] == VList(Tags.NormaliseTags(r.tags))) && NormaliseTagsField(h) == h
  {
    ExpectedHeaderAt(r, clock, TagsKey);
    TagsValue(r, clock);
    TagsOfHeader(ExpectedHeader(r, clock), r.tags);
  }

  lemma TagsValue(r: Request, clock: Clock)
    ensures ValueFor(r, clock, TagsKey) == VList(Tags.NormaliseTags(r.tags))
  {
  }

  lemma TagsOfHeader(h: map<string, Value>, tags: seq<string>)
    requires Name(TagsKey) in h ==> h[Name(TagsKey)] == VList(Tags.NormaliseTags(tags))
    ensures ("tags" in h ==> h["tags"] == VList(Tags.NormaliseTags(tags))) && NormaliseTagsField(h) == h
  {
    assert Name(TagsKey) == "tags";
    if "tags" in h {
      TagsNormalised(h, tags);
    }
  }

  lemma TagsNormalised(h: map<string, Value>, tags: seq<string>)
    requires "tags" in h && h["tags"] == VList(Tags.NormaliseTags(tags))
    ensures NormaliseTagsField(h) == h
  {
    Tags.NormaliseTagsIdempotent(tags);
    SameUpdate(h, "tags");
  }

  /**
   * Parsing what the serialiser writes gives back every field it wrote:
   * title, date, version, commitHash and updatedAt as they were, tags
   * normalised, features and bugfixes trimmed with blanks dropped (and
   * absent when nothing is left), the body trimmed, and the slug and
   * filename derived from the file name.
   */
  lemma RoundTrip(r: Request, clock: Clock, filename: string)
    requires Safe(r, clock)
    ensures Parse(Serialise(r, clock), filename)
         == Ok(ExpectedHeader(r, clock)["body" := VStr(Trim(r.body))]
                                       ["slug" := VStr(StripExtension(filename))]
                                       ["filename" := VStr(filename)])
  {
    var y := Join(RenderAll(Fields(r, clock)), '\n');
    HeaderReadBack(r, clock);
    MatchDocument(y, r.body);
    var c := Document(y, r.body);
    assert Serialise(r, clock) == c;
    var m := MatchFrontmatter(c).value;
    assert Header(c, m) == ExpectedHeader(r, clock);
    ExpectedTitleDate(r, clock);
    ExpectedTags(r, clock);
  }
}
