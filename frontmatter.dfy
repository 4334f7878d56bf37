/**
 * The line-oriented frontmatter parser of `src/mdx.ts`
 * (`parseYamlFrontmatter`). It is not a YAML parser: it reads one line at
 * a time and keeps three pieces of state besides the result, the current
 * key, the items collected for it and whether it is collecting items.
 *
 * `Step`, `RunFrom` and `Finish` say what the parser computes;
 * `ParseYamlFrontmatter` is the loop itself, proved to compute it.
 */
module Frontmatter {
  import opened Wrappers
  import opened Strings
  import opened Sequences
  import opened Numbers
  import Json

  /** A value as the parser stores it. The double `parseFloat` would give
      is kept as the decimal text it was read from. */
  datatype Value =
    | VBool(b: bool)
    | VNull
    | VInt(i: int)
    | VDecimal(text: string)
    | VStr(s: string)
    | VList(items: seq<string>)

  /** JavaScript truthiness: `false`, `null`, `0`, `0.0` and `""` are
      falsy; every array is truthy. */
  predicate Truthy(v: Value) {
    match v
    case VBool(b) => b
    case VNull => false
    case VInt(i) => i != 0
    case VDecimal(t) => exists k :: 0 <= k < |t| && IsDigit(t[k]) && t[k] != '0'
    case VStr(s) => s != []
    case VList(_) => true
  }

  /** The regex `^-?\d+$`. */
  predicate IsIntText(s: string) {
    IsDigits(s) || (|s| >= 2 && s[0] == '-' && IsDigits(s[1..]))
  }

  /** `parseInt(s, 10)` on a string matching `^-?\d+$`. */
  function IntTextValue(s: string): int
    requires IsIntText(s)
  {
    if s[0] == '-' then -(DigitsValue(s[1..]) as int) else DigitsValue(s)
  }

  /** `\d+\.\d+`: digits, one dot, digits. */
  predicate IsPointed(u: string) {
    match FindChar(u, '.')
    case None => false
    case Some(i) => IsDigits(u[..i]) && IsDigits(u[i + 1..])
  }

  /** The regex `^-?\d+\.\d+$`. */
  predicate IsDecimalText(s: string) {
    if s != [] && s[0] == '-' then IsPointed(s[1..]) else IsPointed(s)
  }

  /** The coercion chain of a scalar: `true`, `false`, `null`, an integer,
      a decimal, otherwise the string itself. */
  function Coerce(s: string): (r: Value)
    ensures r.VBool? <==> s == "true" || s == "false"
    ensures r.VNull? <==> s == "null"
    ensures r.VInt? ==> IsIntText(s) && r.i == IntTextValue(s)
    ensures r.VDecimal? ==> IsDecimalText(s) && r.text == s
    ensures r.VStr? <==> s != "true" && s != "false" && s != "null" && !IsIntText(s) && !IsDecimalText(s)
    ensures r.VStr? ==> r.s == s
    ensures !r.VList?
  {
    if s == "true" then VBool(true)
    else if s == "false" then VBool(false)
    else if s == "null" then VNull
    else if IsIntText(s) then VInt(IntTextValue(s))
    else if IsDecimalText(s) then VDecimal(s)
    else VStr(s)
  }

  /** `v.slice(1, -1)` */
  function Inner(v: string): (r: string)
    ensures |v| >= 2 ==> r == v[1..|v| - 1]
    ensures |v| < 2 ==> r == []
  {
    if |v| >= 2 then v[1..|v| - 1] else []
  }

  /** A scalar wrapped in a matching pair of `"` or `'` loses the pair. */
  function StripQuotes(v: string): (r: string)
    ensures |r| <= |v|
  {
    if (StartsWith(v, "\"") && EndsWith(v, "\"")) || (StartsWith(v, "'") && EndsWith(v, "'")) then Inner(v)
    else v
  }

  predicate IsQuoteChar(c: char) {
    c == '"' || c == '\''
  }

  /** `value.replace(/^["']|["']$/g, "")` on an array item: one leading
      and one trailing quote character are removed, each on its own; no
      escape sequence is decoded. */
  function Unquote(v: string): (r: string)
    ensures |r| <= |v|
  {
    var a := if v != [] && IsQuoteChar(v[0]) then v[1..] else v;
    if a != [] && IsQuoteChar(a[|a| - 1]) then a[..|a| - 1] else a
  }

  /** The parser's state between two lines. An empty `key` stands for
      `null`: the parser only ever tests the key for truthiness. */
  datatype State = State(result: map<string, Value>, key: string, items: seq<string>, inArray: bool)

  const Init := State(map[], "", [], false)

  /** Items are waiting to be stored under the current key. */
  predicate Pending(st: State) {
    st.key != [] && st.inArray && |st.items| > 0
  }

  /** Stores the collected items, if any, and leaves array mode. */
  function Flush(st: State): (r: State)
    ensures Pending(st) ==> r == State(st.result[st.key := VList(st.items)], st.key, [], false)
    ensures !Pending(st) ==> r == st
  {
    if Pending(st) then State(st.result[st.key := VList(st.items)], st.key, [], false) else st
  }

  /** What one line does to the state. */
  function Step(st: State, line: string): State {
    var t := Trim(line);
    if t == [] then st
    else if StartsWith(t, "- ") then
      if st.key != [] && st.inArray then st.(items := st.items + [Unquote(Trim(t[2..]))]) else st
    else
      var s := Flush(st);
      match FindChar(t, ':')
      case None => s
      case Some(c) => KeyStep(s, Trim(t[..c]), Trim(t[c + 1..]))
  }

  /** What a line `k: v` does once the collected items are stored: an
      empty value or `[]` starts collecting items for `k`, any other value
      is stored under `k`. */
  function KeyStep(s: State, k: string, v: string): State {
    if v == [] || v == "[]" then s.(key := k, items := [], inArray := true)
    else s.(key := k, result := s.result[k := Coerce(StripQuotes(v))])
  }

  /** The state after the given lines, one `Step` per line. */
  function RunFrom(st: State, lines: seq<string>): State {
    if lines == [] then st else Step(RunFrom(st, lines[..|lines| - 1]), lines[|lines| - 1])
  }

  /** The end of input stores a trailing array. */
  function Finish(st: State): map<string, Value> {
    Flush(st).result
  }

  /** What `parseYamlFrontmatter(yaml)` returns. */
  function ParseYaml(yaml: string): map<string, Value> {
    Finish(RunFrom(Init, Split(yaml, '\n')))
  }

  /** The run over `n` lines is one step after the run over `n - 1`. */
  lemma RunLast(st: State, ls: seq<string>, n: nat)
    requires 0 < n <= |ls|
    ensures RunFrom(st, ls[..n]) == Step(RunFrom(st, ls[..n - 1]), ls[n - 1])
  {
    PrefixOfPrefix(ls, n - 1);
  }

  /** `parseYamlFrontmatter`: the loop over the lines of `yaml`. */
  method ParseYamlFrontmatter(yaml: string) returns (result: map<string, Value>)
    ensures result == ParseYaml(yaml)
  {
    result := map[];
    var lines := Split(yaml, '\n');
    var currentKey: string := "";
    var currentValue: seq<string> := [];
    var inArray := false;
    for i := 0 to |lines|
      invariant State(result, currentKey, currentValue, inArray) == RunFrom(Init, lines[..i])
    {
      RunLast(Init, lines, i + 1);
      var line := lines[i];
      var trimmed := Trim(line);
      if trimmed == [] {
        continue;
      }
      if StartsWith(trimmed, "- ") {
        if currentKey != [] && inArray {
          var value := Trim(trimmed[2..]);
          var unquoted := Unquote(value);
          currentValue := currentValue + [unquoted];
        }
        continue;
      }
      if currentKey != [] && inArray && |currentValue| > 0 {
        result := result[currentKey := VList(currentValue)];
        currentValue := [];
        inArray := false;
      }
      var colonIndex := FindChar(trimmed, ':');
      if colonIndex.None? {
        continue;
      }
      currentKey := Trim(trimmed[..colonIndex.value]);
      var value := Trim(trimmed[colonIndex.value + 1..]);
      if value == [] || value == "[]" {
        inArray := true;
        currentValue := [];
        continue;
      }
      value := StripQuotes(value);
      result := result[currentKey := Coerce(value)];
    }
    TakeAll(lines);
    if currentKey != [] && inArray && |currentValue| > 0 {
      result := result[currentKey := VList(currentValue)];
    }
  }

  // ---------------------------------------------------------------------
  // Properties of the parser

  /** Running over two runs of lines is running over the first, then the
      second. */
  lemma {:induction false} RunFromAppend(st: State, a: seq<string>, b: seq<string>)
    ensures RunFrom(st, a + b) == RunFrom(RunFrom(st, a), b)
    decreases |b|
  {
    if b == [] {
      assert a + b == a;
    } else {
      var b' := b[..|b| - 1];
      assert (a + b)[..|a + b| - 1] == a + b';
      assert (a + b)[|a + b| - 1] == b[|b| - 1];
      RunFromAppend(st, a, b');
    }
  }

  /** Blank and white-space-only lines make no difference anywhere. */
  lemma {:induction false} BlankLinesIgnored(st: State, lines: seq<string>)
    ensures RunFrom(st, lines) == RunFrom(st, NonBlank(lines))
  {
    if lines != [] {
      var p := lines[..|lines| - 1];
      var l := lines[|lines| - 1];
      BlankLinesIgnored(st, p);
      if Trim(l) != [] {
        var q := NonBlank(p);
        assert (q + [l])[..|q + [l]| - 1] == q;
      }
    }
  }

  /** Every list in the map holds at least one item. */
  predicate NoEmptyLists(m: map<string, Value>) {
    forall k :: k in m && m[k].VList? ==> m[k].items != []
  }

  lemma FlushNoEmptyLists(st: State)
    requires NoEmptyLists(st.result)
    ensures NoEmptyLists(Flush(st).result)
  {
  }

  lemma KeyStepNoEmptyLists(s: State, k: string, v: string)
    requires NoEmptyLists(s.result)
    ensures NoEmptyLists(KeyStep(s, k, v).result)
  {
  }

  lemma StepNoEmptyLists(st: State, line: string)
    requires NoEmptyLists(st.result)
    ensures NoEmptyLists(Step(st, line).result)
  {
    var t := Trim(line);
    if t != [] && !StartsWith(t, "- ") {
      FlushNoEmptyLists(st);
      match FindChar(t, ':')
      case None =>
      case Some(c) => KeyStepNoEmptyLists(Flush(st), Trim(t[..c]), Trim(t[c + 1..]));
    }
  }


  /** An array key that collected no items is never stored. */
  lemma {:induction false} ParseYamlNoEmptyLists(yaml: string)
    ensures NoEmptyLists(ParseYaml(yaml))
  {
    RunNoEmptyLists(Split(yaml, '\n'));
  }

  lemma {:induction false} RunNoEmptyLists(lines: seq<string>)
    ensures NoEmptyLists(RunFrom(Init, lines).result)
  {
    if lines != [] {
      RunNoEmptyLists(lines[..|lines| - 1]);
      StepNoEmptyLists(RunFrom(Init, lines[..|lines| - 1]), lines[|lines| - 1]);
    }
  }

  /** A line that is neither blank nor an array item stores the collected
      items: a line without a colon does nothing else, and a key line
      keeps them unless it names the same key again. */
  lemma StepFlushes(st: State, line: string)
    requires Trim(line) != [] && !StartsWith(Trim(line), "- ")
    ensures Pending(st) && ':' !in Trim(line) ==> Step(st, line).result[st.key] == VList(st.items)
    ensures Pending(st) && ':' in Trim(line) && Step(st, line).key != st.key ==>
              Step(st, line).result[st.key] == VList(st.items)
    ensures ':' !in Trim(line) ==> Step(st, line) == Flush(st)
  {
  }

  /** A line that is not an item and has its first colon at `c` is a
      key line. */
  lemma StepAtColon(st: State, line: string, c: nat)
    requires Trim(line) != [] && !StartsWith(Trim(line), "- ")
    requires FindChar(Trim(line), ':') == Some(c)
    ensures var t := Trim(line);
            c < |t| && Step(st, line) == KeyStep(Flush(st), Trim(t[..c]), Trim(t[c + 1..]))
  {
  }

  /** A key line names the text before its first colon, trimmed; a
      scalar on it overwrites whatever the key held, an empty value or
      `[]` starts collecting items; the other keys keep their values. */
  lemma StepKeyLine(st: State, line: string, c: nat)
    requires Trim(line) != [] && !StartsWith(Trim(line), "- ")
    requires c < |Trim(line)| && Trim(line)[c] == ':' && ':' !in Trim(line)[..c]
    ensures var t := Trim(line);
            var k := Trim(t[..c]);
            var v := Trim(t[c + 1..]);
            var r := Step(st, line);
            && ':' !in k
            && r.key == k
            && (v == [] || v == "[]" ==> r.inArray && r.items == [] && r.result == Finish(st))
            && (v != [] && v != "[]" ==> r.result == Finish(st)[k := Coerce(StripQuotes(v))])
            && (v != [] && v != "[]" ==> r.inArray == (st.inArray && !Pending(st)))
  {
    var t := Trim(line);
    FindCharAt(t, ':', c);
    assert Step(st, line) == KeyStep(Flush(st), Trim(t[..c]), Trim(t[c + 1..]));
    var a, b := TrimSlice(t[..c]);
    NotInSlice(t[..c], ':', a, b);
  }

  /** An array item is kept only while a key is collecting items. */
  lemma StepItemLine(st: State, line: string)
    requires StartsWith(Trim(line), "- ")
    ensures var r := Step(st, line);
            && r.result == st.result && r.key == st.key && r.inArray == st.inArray
            && (st.key != [] && st.inArray ==> r.items == st.items + [Unquote(Trim(Trim(line)[2..]))])
            && (st.key == [] || !st.inArray ==> r.items == st.items)
  {
  }

  /** A trailing array is stored at the end of input. */
  lemma FinishStoresPending(st: State)
    ensures Pending(st) ==> Finish(st) == st.result[st.key := VList(st.items)]
    ensures !Pending(st) ==> Finish(st) == st.result
  {
  }

  // ---------------------------------------------------------------------
  // Lines of the shape the serialiser writes

  /** A key the serialiser uses: non-empty, no colon, no white space at
      the ends, not starting with `-`. */
  predicate GoodKey(k: string) {
    k != [] && ':' !in k && Trimmed(k) && k[0] != '-'
  }

  /** `k: v` is trimmed, is not an item, and has its first colon right
      after `k`. */
  lemma KeyValueLine(k: string, v: string)
    requires GoodKey(k) && v != [] && Trimmed(v)
    ensures var line := k + ": " + v;
            && Trim(line) == line && !StartsWith(line, "- ")
            && FindChar(line, ':') == Some(|k|)
            && Trim(line[..|k|]) == k && Trim(line[|k| + 1..]) == v
  {
    var line := k + ": " + v;
    assert line == k + [':'] + (" " + v);
    assert line[0] == k[0] && line[|line| - 1] == v[|v| - 1];
    TrimOfTrimmed(line);
    assert line[..2] != "- ";
    FindCharAfter(k, ':', " " + v);
    assert line[..|k|] == k;
    assert line[|k| + 1..] == " " + v;
    TrimOfTrimmed(k);
    TrimPadded(" ", v);
    TrimOfTrimmed(v);
  }

  /** `key: value` with a value that is neither empty nor `[]`. */
  lemma {:induction false} ScalarLineStep(st: State, k: string, v: string)
    requires GoodKey(k) && v != [] && Trimmed(v) && v != "[]"
    ensures Step(st, k + ": " + v) == Flush(st).(key := k, result := Finish(st)[k := Coerce(StripQuotes(v))])
  {
    KeyValueLine(k, v);
    StepAtColon(st, k + ": " + v, |k|);
  }

  /** `k:` is trimmed, is not an item, and ends in its first colon. */
  lemma HeaderLine(k: string)
    requires GoodKey(k)
    ensures var line := k + ":";
            && Trim(line) == line && !StartsWith(line, "- ")
            && FindChar(line, ':') == Some(|k|)
            && Trim(line[..|k|]) == k && Trim(line[|k| + 1..]) == []
  {
    var line := k + ":";
    assert line == k + [':'] + [];
    assert line[0] == k[0] && line[|line| - 1] == ':';
    TrimOfTrimmed(line);
    assert line[..2] != "- ";
    FindCharAfter(k, ':', []);
    assert line[..|k|] == k;
    assert line[|k| + 1..] == [];
    TrimOfTrimmed(k);
  }

  /** `key:` with nothing after the colon starts collecting items. */
  lemma {:induction false} HeaderLineStep(st: State, k: string)
    requires GoodKey(k)
    ensures Step(st, k + ":") == Flush(st).(key := k, items := [], inArray := true)
  {
    HeaderLine(k);
    StepAtColon(st, k + ":", |k|);
  }

  /** The line `  - <JSON string>` adds the JSON text between the quotes,
      escapes and all, to the collected items. */
  lemma {:induction false} ItemLineStep(st: State, x: string)
    ensures Step(st, "  - " + Json.Quote(x))
         == if st.key != [] && st.inArray then st.(items := st.items + [Json.Escape(x)]) else st
  {
    var q := Json.Quote(x);
    assert q[0] == '"' && q[|q| - 1] == '"';
    var t := ItemLineTrim(q);
    assert t[..2] == "- " && t[2..] == q;
    UnquoteQuoted(x);
  }

  /** The trimmed item line, and its trimmed value, for a quoted value. */
  lemma ItemLineTrim(q: string) returns (t: string)
    requires |q| >= 2 && q[0] == '"' && q[|q| - 1] == '"'
    ensures t == "- " + q && Trim("  - " + q) == t && Trim(q) == q
  {
    t := "- " + q;
    assert "  - " + q == "  " + t;
    TrimPadded("  ", t);
    assert t[0] == '-' && t[|t| - 1] == '"';
    TrimOfTrimmed(t);
    TrimOfTrimmed(q);
  }

  /** An array item is unquoted character by character: a JSON string
      comes back as its escaped text, not decoded. */
  lemma UnquoteQuoted(x: string)
    ensures Unquote(Json.Quote(x)) == Json.Escape(x)
  {
    var q := Json.Quote(x);
    assert q[1..][..|q[1..]| - 1] == Json.Escape(x);
  }

  /** A scalar in double quotes loses exactly that pair of quotes. */
  lemma StripQuotesQuoted(x: string)
    ensures StripQuotes("\"" + x + "\"") == x
  {
    var q := "\"" + x + "\"";
    assert q[..1] == "\"" && q[|q| - 1..] == "\"";
    assert q[1..|q| - 1] == x;
  }

  /** A scalar not wrapped in a matching pair of quotes is unchanged. */
  lemma StripQuotesUnwrapped(v: string)
    requires v == [] || !((v[0] == '"' && v[|v| - 1] == '"') || (v[0] == '\'' && v[|v| - 1] == '\''))
    ensures StripQuotes(v) == v
  {
    if v != [] {
      assert StartsWith(v, "\"") ==> v[0] == '"';
      assert EndsWith(v, "\"") ==> v[|v| - 1] == '"';
      assert StartsWith(v, "'") ==> v[0] == '\'';
      assert EndsWith(v, "'") ==> v[|v| - 1] == '\'';
    }
  }

  /**
   * The quirk of an array key that collected nothing: it leaves array
   * mode on, so the items that follow a later scalar key are collected
   * for that key and, at the next key line or the end of input, replace
   * its scalar.
   */
  lemma {:induction false} EmptyArrayQuirk(st: State, a: string, k: string, v: string, x: string)
    requires GoodKey(a) && GoodKey(k) && v != [] && Trimmed(v) && v != "[]"
    ensures var s := RunFrom(st, [a + ":", k + ": " + v, "  - " + Json.Quote(x)]);
            s.inArray && s.key == k && s.items == [Json.Escape(x)]
            && Finish(s)[k] == VList([Json.Escape(x)])
  {
    var l1, l2, l3 := a + ":", k + ": " + v, "  - " + Json.Quote(x);
    var s1 := Step(st, l1);
    HeaderLineStep(st, a);
    ScalarLineStep(s1, k, v);
    var s2 := Step(s1, l2);
    ItemLineStep(s2, x);
    assert [l1, l2, l3][..2] == [l1, l2];
    assert [l1, l2][..1] == [l1];
    assert [l1][..0] == [];
    assert RunFrom(st, [l1]) == s1;
    assert RunFrom(st, [l1, l2]) == s2;
    var s3 := Step(s2, l3);
    assert RunFrom(st, [l1, l2, l3]) == s3;
    assert s3.items == [Json.Escape(x)];
  }

  // ---------------------------------------------------------------------
  // Coercion recognises the canonical text of each scalar

  /** The text `${v}` of a scalar value. */
  function ScalarText(v: Value): string
    requires !v.VList?
  {
    match v
    case VBool(b) => if b then "true" else "false"
    case VNull => "null"
    case VInt(i) => IntToString(i)
    case VDecimal(t) => t
    case VStr(s) => s
  }

  lemma IntTextOfInt(i: int)
    ensures IsIntText(IntToString(i)) && IntTextValue(IntToString(i)) == i
  {
    if i < 0 {
      var s := IntToString(i);
      assert s[1..] == NatToString(-i);
    }
  }

  /** Reading back the text of a value gives the value, for every integer,
      every decimal text and every string that looks like none of the
      other kinds. */
  lemma CoerceScalarText(v: Value)
    requires !v.VList?
    requires v.VDecimal? ==> IsDecimalText(v.text) && !IsIntText(v.text)
    requires v.VStr? ==> Coerce(v.s).VStr?
    ensures Coerce(ScalarText(v)) == v
  {
    match v
    case VInt(i) =>
      IntTextOfInt(i);
      var s := IntToString(i);
      assert s != "true" && s != "false" && s != "null" by {
        assert s[0] == '-' || IsDigit(s[0]);
      }
    case VDecimal(t) =>
      assert t != "true" && t != "false" && t != "null" by {
        if t[0] == '-' {
        } else {
          match FindChar(t, '.')
          case Some(i) => assert IsDigit(t[..i][0]);
        }
      }
    case _ =>
  }
}
