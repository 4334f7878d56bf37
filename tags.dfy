/**
 * The tag normaliser of `src/mdx.ts` (`normaliseTags`): trim and
 * lower-case every tag, drop the empty ones, keep the first occurrence of
 * each.
 */
module Tags {
  import opened Strings
  import opened Sequences

  /** `tag.trim().toLowerCase()` */
  function CleanTag(t: string): string {
    ToLower(Trim(t))
  }

  /** What a normalised tag looks like: non-empty, no white space at the
      ends, no upper-case ASCII letter. */
  predicate IsNormalTag(t: string) {
    t != [] && Trimmed(t) && forall i :: 0 <= i < |t| ==> !('A' <= t[i] <= 'Z')
  }

  /** Every tag cleaned, the empty ones dropped, order kept. */
  function CleanAll(tags: seq<string>): (r: seq<string>)
    ensures forall k :: 0 <= k < |r| ==> IsNormalTag(r[k])
  {
    if tags == [] then []
    else
      var t := CleanTag(tags[0]);
      ToLowerKeepsTrimmed(Trim(tags[0]));
      (if t != [] then [t] else []) + CleanAll(tags[1..])
  }

  /** `normaliseTags(tags)`; a missing list is the empty one. */
  function NormaliseTags(tags: seq<string>): (r: seq<string>)
    ensures tags == [] ==> r == []
    ensures forall k :: 0 <= k < |r| ==> IsNormalTag(r[k])
    ensures Distinct(r)
  {
    if |tags| == 0 then [] else KeepFirst(CleanAll(tags))
  }

  lemma {:induction false} CleanAllMembers(tags: seq<string>, t: string)
    ensures t in CleanAll(tags) <==> t != [] && exists k :: 0 <= k < |tags| && CleanTag(tags[k]) == t
  {
    if tags != [] {
      var c0 := CleanTag(tags[0]);
      var head := if c0 != [] then [c0] else [];
      assert CleanAll(tags) == head + CleanAll(tags[1..]);
      CleanAllMembers(tags[1..], t);
      ExistsCleanSplit(tags, t);
    }
  }

  lemma ExistsCleanSplit(tags: seq<string>, t: string)
    requires tags != []
    ensures (exists k :: 0 <= k < |tags| && CleanTag(tags[k]) == t)
        <==> CleanTag(tags[0]) == t || exists k :: 0 <= k < |tags[1..]| && CleanTag(tags[1..][k]) == t
  {
    if exists k :: 0 <= k < |tags| && CleanTag(tags[k]) == t {
      var k :| 0 <= k < |tags| && CleanTag(tags[k]) == t;
      if k > 0 {
        assert tags[1..][k - 1] == tags[k];
      }
    }
    if exists k :: 0 <= k < |tags[1..]| && CleanTag(tags[1..][k]) == t {
      var k :| 0 <= k < |tags[1..]| && CleanTag(tags[1..][k]) == t;
      assert tags[k + 1] == tags[1..][k];
    }
  }

  /** A tag is in the output exactly when it is the non-empty cleaned form
      of some input tag. */
  lemma NormaliseTagsMembers(tags: seq<string>, t: string)
    ensures t in NormaliseTags(tags) <==> t != [] && exists k :: 0 <= k < |tags| && CleanTag(tags[k]) == t
  {
    CleanAllMembers(tags, t);
    var c := CleanAll(tags);
    if t in c {
      var k := FirstIndex(c, t);
      assert c[k] in KeepFirst(c);
    }
    if t in KeepFirst(c) {
      var k :| 0 <= k < |KeepFirst(c)| && KeepFirst(c)[k] == t;
    }
  }

  /** Output order is the order of first occurrence among the cleaned tags. */
  lemma NormaliseTagsOrder(tags: seq<string>, i: nat, j: nat)
    requires i < j < |NormaliseTags(tags)|
    ensures NormaliseTags(tags)[i] in CleanAll(tags) && NormaliseTags(tags)[j] in CleanAll(tags)
    ensures FirstIndex(CleanAll(tags), NormaliseTags(tags)[i]) < FirstIndex(CleanAll(tags), NormaliseTags(tags)[j])
  {
    KeepFirstOrder(CleanAll(tags), i, j);
  }

  lemma {:induction false} CleanAllOfNormal(tags: seq<string>)
    requires forall k :: 0 <= k < |tags| ==> IsNormalTag(tags[k])
    ensures CleanAll(tags) == tags
  {
    if tags != [] {
      var t, rest := tags[0], tags[1..];
      assert tags == [t] + rest;
      TrimOfTrimmed(t);
      ToLowerNoUpper(t);
      CleanAllOfNormal(rest);
    }
  }

  /** Normalising twice is normalising once. */
  lemma NormaliseTagsIdempotent(tags: seq<string>)
    ensures NormaliseTags(NormaliseTags(tags)) == NormaliseTags(tags)
  {
    var r := NormaliseTags(tags);
    if r != [] {
      CleanAllOfNormal(r);
      KeepFirstOfDistinct(r);
    }
  }

  /** The worked example: `["B", " b ", "a"]` becomes `["b", "a"]`. */
  lemma NormaliseTagsExample()
    ensures NormaliseTags(["B", " b ", "a"]) == ["b", "a"]
  {
    CleanExample();
    KeepFirstExample();
  }

  lemma CleanExample()
    ensures CleanAll(["B", " b ", "a"]) == ["b", "b", "a"]
  {
    CleanTagExamples();
    CleanAllThree("B", " b ", "a");
  }

  lemma CleanTagExamples()
    ensures CleanTag("B") == "b" && CleanTag(" b ") == "b" && CleanTag("a") == "a"
  {
    CleanTagOne('B', 'b');
    CleanTagOne('b', 'b');
    CleanTagOne('a', 'a');
    CleanTagPadded('b');
  }

  lemma CleanTagOne(c: char, l: char)
    requires !IsSpace(c) && l == LowerChar(c)
    ensures CleanTag([c]) == [l]
  {
    TrimOfTrimmed([c]);
  }

  lemma CleanTagPadded(c: char)
    requires !IsSpace(c) && !('A' <= c <= 'Z')
    ensures CleanTag([' ', c, ' ']) == [c]
  {
    assert [' ', c, ' '] == [' '] + [c] + [' '];
    TrimAround([' '], [c], [' ']);
    TrimOfTrimmed([c]);
    ToLowerNoUpper([c]);
  }

  lemma {:induction false} CleanAllThree(a: string, b: string, c: string)
    requires CleanTag(a) != [] && CleanTag(b) != [] && CleanTag(c) != []
    ensures CleanAll([a, b, c]) == [CleanTag(a), CleanTag(b), CleanTag(c)]
  {
    var tags := [a, b, c];
    assert tags[1..] == [b, c];
    assert tags[1..][1..] == [c];
    assert [c][1..] == [];
    assert CleanAll([c]) == [CleanTag(c)] + CleanAll([]);
    assert CleanAll([b, c]) == [CleanTag(b)] + CleanAll([c]);
    assert CleanAll(tags) == [CleanTag(a)] + CleanAll([b, c]);
  }

  lemma KeepFirstExample()
    ensures KeepFirst(["b", "b", "a"]) == ["b", "a"]
  {
    assert "b"[0] != "a"[0];
    KeepFirstRepeat("b", "a");
  }

  lemma KeepFirstRepeat<T>(x: T, y: T)
    requires x != y
    ensures KeepFirst([x, x, y]) == [x, y]
  {
    var c := [x, x, y];
    assert c[..2] == [x, x] && [x, x][..1] == [x] && [x][..0] == [];
    assert KeepFirst([x]) == [x];
    assert KeepFirst([x, x]) == [x];
    assert y !in c[..2];
  }
}
