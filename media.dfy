/**
 * The filename check of the media-delete route in
 * `src/admin/api-examples/media-delete.ts`: a request without a filename
 * is refused, and the filename is sanitised before it is joined to the
 * media directory. `/[^a-zA-Z0-9._-]/g` turns every other character into
 * `-`, one for one, and `/^-+|-+$/g` then drops the dashes at both ends.
 */
module MediaDelete {
  import opened Wrappers
  import opened Strings
  import opened Json

  /** The characters the sanitiser keeps. */
  predicate Allowed(c: char) {
    'a' <= c <= 'z' || 'A' <= c <= 'Z' || '0' <= c <= '9' || c == '.' || c == '_' || c == '-'
  }

  /** `s.replace(/[^a-zA-Z0-9._-]/g, "-")`. */
  function ReplaceDisallowed(s: string): (r: string)
    ensures |r| == |s|
    ensures forall k :: 0 <= k < |s| ==> r[k] == if Allowed(s[k]) then s[k] else '-'
  {
    if s == [] then [] else [if Allowed(s[0]) then s[0] else '-'] + ReplaceDisallowed(s[1..])
  }

  /** The sanitised filename. */
  function Sanitise(filename: string): (r: string)
    ensures forall k :: 0 <= k < |r| ==> Allowed(r[k])
    ensures r == [] || (r[0] != '-' && r[|r| - 1] != '-')
  {
    var m := ReplaceDisallowed(filename);
    assert forall k :: 0 <= k < |m| ==> Allowed(m[k]);
    TrimChar(m, '-')
  }

  /** What the route answers before it touches the file system: 400 when
      `filename` is falsy, 500 when it is some other non-string (the call
      to `replace` throws and the handler's `catch` answers), and
      otherwise the name it goes on with. */
  function CheckFilename(filename: Json): (r: Result<string, nat>)
    ensures !Truthy(filename) <==> r == Err(400)
    ensures r.Ok? <==> filename.JString? && filename.s != []
    ensures r.Ok? ==> r.value == Sanitise(filename.s)
  {
    if !Truthy(filename) then Err(400)
    else if filename.JString? then Ok(Sanitise(filename.s))
    else Err(500)
  }

  /** The dashes `TrimChar` drops all lie at the ends: what is left is one
      stretch of the input, kept as it is. */
  lemma {:induction false} TrimCharSlice(s: string, c: char) returns (a: nat, b: nat)
    ensures a <= b <= |s| && TrimChar(s, c) == s[a..b]
    ensures forall k :: 0 <= k < a ==> s[k] == c
    ensures forall k :: b <= k < |s| ==> s[k] == c
    decreases |s|
  {
    if s != [] && s[0] == c {
      var a', b' := TrimCharSlice(s[1..], c);
      a, b := ShiftSlice(s, c, a', b');
    } else if s != [] && s[|s| - 1] == c {
      var p := s[..|s| - 1];
      a, b := TrimCharSlice(p, c);
      WidenSlice(s, p, c, a, b);
    } else {
      a, b := 0, |s|;
    }
  }

  /** A stretch of `s[1..]` between runs of `c`, seen in `s` when `s`
      starts with `c`. */
  lemma ShiftSlice(s: string, c: char, a': nat, b': nat) returns (a: nat, b: nat)
    requires s != [] && s[0] == c && a' <= b' <= |s| - 1
    requires forall k :: 0 <= k < a' ==> s[1..][k] == c
    requires forall k :: b' <= k < |s| - 1 ==> s[1..][k] == c
    ensures a == a' + 1 && b == b' + 1 && s[1..][a'..b'] == s[a..b]
    ensures forall k :: 0 <= k < a ==> s[k] == c
    ensures forall k :: b <= k < |s| ==> s[k] == c
  {
    a, b := a' + 1, b' + 1;
    forall k | 1 <= k < |s| ensures s[k] == s[1..][k - 1] {
    }
  }

  /** A stretch of `s` without its last character, when that is `c`. */
  lemma WidenSlice(s: string, p: string, c: char, a: nat, b: nat)
    requires s != [] && s[|s| - 1] == c && p == s[..|s| - 1] && a <= b <= |p|
    requires forall k :: b <= k < |p| ==> p[k] == c
    ensures p[a..b] == s[a..b]
    ensures forall k :: b <= k < |s| ==> s[k] == c
  {
    forall k | b <= k < |s| ensures s[k] == c {
      if k < |p| {
        assert s[k] == p[k];
      }
    }
  }

  /** Every character of the filename keeps its place: the sanitised name
      is one stretch of the one-for-one replacement, and only dashes are
      cut off around it. */
  lemma SanitiseOneForOne(filename: string) returns (a: nat, b: nat)
    ensures a <= b <= |filename|
    ensures Sanitise(filename) == ReplaceDisallowed(filename)[a..b]
    ensures forall k :: 0 <= k < a ==> !Allowed(filename[k]) || filename[k] == '-'
    ensures forall k :: b <= k < |filename| ==> !Allowed(filename[k]) || filename[k] == '-'
  {
    a, b := TrimCharSlice(ReplaceDisallowed(filename), '-');
  }

  /** No path separator survives, so the name cannot leave the directory
      it is joined to. */
  lemma NoSeparators(filename: string)
    ensures '/' !in Sanitise(filename) && '\\' !in Sanitise(filename)
  {
    var r := Sanitise(filename);
    assert forall k :: 0 <= k < |r| ==> r[k] != '/' && r[k] != '\\';
  }

  /** A name of allowed characters without a dash at either end is kept
      as it is; dots are allowed, so `.` and `..` are kept too. */
  lemma SanitiseKeeps(filename: string)
    requires forall k :: 0 <= k < |filename| ==> Allowed(filename[k])
    requires filename == [] || (filename[0] != '-' && filename[|filename| - 1] != '-')
    ensures Sanitise(filename) == filename
  {
    assert ReplaceDisallowed(filename) == filename;
    TrimCharNoEnds(filename, '-');
  }

  /** Sanitising twice is sanitising once. */
  lemma SanitiseIdempotent(filename: string)
    ensures Sanitise(Sanitise(filename)) == Sanitise(filename)
  {
    SanitiseKeeps(Sanitise(filename));
  }

  /** A trailing separator becomes a dash and is dropped: `"../"` is
      sanitised to `".."`. */
  lemma TrailingSlash(name: string)
    requires forall k :: 0 <= k < |name| ==> Allowed(name[k])
    requires name != [] && name[0] != '-' && name[|name| - 1] != '-'
    ensures Sanitise(name + "/") == name
  {
    var s := name + "/";
    var m := ReplaceDisallowed(s);
    assert m == name + "-";
    assert m[..|m| - 1] == name;
    TrimCharNoEnds(name, '-');
  }

  lemma ParentDirectory()
    ensures Sanitise("../") == ".."
  {
    assert ".." + "/" == "../";
    TrailingSlash("..");
  }
}
