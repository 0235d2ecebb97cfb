/** POSIX pathname text: splitting, lexical normalisation and resolution, as `node:path` performs them
    for LocalStorageService.resolveKey (src/infrastructure/storage/local-storage.service.ts). */
module Paths {
  /** An absolute location: the names on the way down from `/`. */
  type Location = seq<string>

  // ---- Splitting and joining ----

  predicate NoSlash(s: string) {
    '/' !in s
  }

  /** A segment that names a directory entry: not empty, `.` or `..`, and without a slash. */
  predicate Plain(segment: string) {
    segment != "" && segment != "." && segment != ".." && NoSlash(segment)
  }

  predicate AllPlain(segments: seq<string>) {
    forall i | 0 <= i < |segments| :: Plain(segments[i])
  }

  /** The text between slashes; one more segment than there are slashes. */
  function Split(s: string): (segments: seq<string>)
    ensures |segments| >= 1
    ensures forall i | 0 <= i < |segments| :: NoSlash(segments[i])
  {
    if s == "" then [""]
    else
      var rest := Split(s[1..]);
      if s[0] == '/' then [""] + rest else [[s[0]] + rest[0]] + rest[1..]
  }

  function Join(segments: seq<string>): string {
    if segments == [] then ""
    else if |segments| == 1 then segments[0]
    else segments[0] + "/" + Join(segments[1..])
  }

  lemma {:induction false} SplitNoSlash(s: string)
    requires NoSlash(s)
    ensures Split(s) == [s]
  {
    if s != "" {
      assert s[0] in s && forall c | c in s[1..] :: c in s;
      SplitNoSlash(s[1..]);
      assert [s[0]] + s[1..] == s;
    }
  }

  /** Splitting distributes over a separating slash. */
  lemma {:induction false} SplitAtSlash(a: string, b: string)
    ensures Split(a + "/" + b) == Split(a) + Split(b)
  {
    var s := a + "/" + b;
    if a == "" {
      assert s[1..] == b;
    } else {
      assert s[0] == a[0];
      assert s[1..] == a[1..] + "/" + b;
      SplitAtSlash(a[1..], b);
    }
  }

  lemma {:induction false} SplitJoin(segments: seq<string>)
    requires segments != [] && forall i | 0 <= i < |segments| :: NoSlash(segments[i])
    ensures Split(Join(segments)) == segments
  {
    SplitNoSlash(segments[0]);
    if |segments| > 1 {
      SplitJoin(segments[1..]);
      SplitAtSlash(segments[0], Join(segments[1..]));
    }
  }

  // ---- The segments that matter ----

  /** Drops what names no step: empty segments and `.`. */
  function Steps(segments: seq<string>): seq<string> {
    if segments == [] then []
    else
      var last := segments[|segments| - 1];
      var init := Steps(segments[..|segments| - 1]);
      if last == "" || last == "." then init else init + [last]
  }

  lemma {:induction false} StepsConcat(a: seq<string>, b: seq<string>)
    ensures Steps(a + b) == Steps(a) + Steps(b)
  {
    if b == [] {
      assert a + b == a;
    } else {
      assert (a + b)[..|a + b| - 1] == a + b[..|b| - 1];
      StepsConcat(a, b[..|b| - 1]);
    }
  }

  lemma {:induction false} StepsOfPlain(segments: seq<string>)
    requires AllPlain(segments)
    ensures Steps(segments) == segments
  {
    if segments != [] {
      StepsOfPlain(segments[..|segments| - 1]);
    }
  }

  lemma {:induction false} StepsAreNames(segments: seq<string>)
    requires forall i | 0 <= i < |segments| :: NoSlash(segments[i])
    ensures forall i | 0 <= i < |Steps(segments)| :: Steps(segments)[i] == ".." || Plain(Steps(segments)[i])
  {
    if segments != [] {
      StepsAreNames(segments[..|segments| - 1]);
    }
  }

  // ---- The dot-segment stack ----

  /** `..` segments that could not be cancelled, then the names still standing. */
  datatype Stack = Stack(ups: nat, names: seq<string>)

  function Walk(steps: seq<string>): Stack {
    if steps == [] then Stack(0, [])
    else
      var before := Walk(steps[..|steps| - 1]);
      var step := steps[|steps| - 1];
      if step != ".." then before.(names := before.names + [step])
      else if before.names != [] then before.(names := before.names[..|before.names| - 1])
      else before.(ups := before.ups + 1)
  }

  /** Names entered minus directories left. */
  function Depth(steps: seq<string>): int {
    if steps == [] then 0
    else Depth(steps[..|steps| - 1]) + if steps[|steps| - 1] == ".." then -1 else 1
  }

  /** Some prefix of the steps leaves more directories than it has entered. */
  ghost predicate Escapes(steps: seq<string>) {
    exists n | 0 <= n <= |steps| :: Depth(steps[..n]) < 0
  }

  /** The stack balances the depth, and it has leading `..` exactly when some prefix escapes. */
  lemma {:induction false} WalkDepth(steps: seq<string>)
    ensures Depth(steps) == |Walk(steps).names| - Walk(steps).ups
    ensures Walk(steps).ups > 0 <==> Escapes(steps)
  {
    if steps == [] {
      assert steps[..0] == steps;
    } else {
      var init := steps[..|steps| - 1];
      WalkDepth(init);
      assert steps[..|steps|] == steps;
      assert forall n | 0 <= n <= |init| :: init[..n] == steps[..n];
      if Escapes(init) {
        var n :| 0 <= n <= |init| && Depth(init[..n]) < 0;
        assert Depth(steps[..n]) < 0;
      }
      if Escapes(steps) && !Escapes(init) {
        assert forall m | 0 <= m <= |init| :: Depth(steps[..m]) == Depth(init[..m]) >= 0;
        var n :| 0 <= n <= |steps| && Depth(steps[..n]) < 0;
        assert steps[..n] == steps;
      }
    }
  }

  lemma {:induction false} WalkNamesPlain(steps: seq<string>)
    requires forall i | 0 <= i < |steps| :: steps[i] == ".." || Plain(steps[i])
    ensures AllPlain(Walk(steps).names)
  {
    if steps != [] {
      WalkNamesPlain(steps[..|steps| - 1]);
    }
  }

  lemma {:induction false} WalkOfPlain(segments: seq<string>)
    requires AllPlain(segments)
    ensures Walk(segments) == Stack(0, segments)
  {
    if segments != [] {
      WalkOfPlain(segments[..|segments| - 1]);
    }
  }

  /** A name followed by `..` leaves no trace, wherever it stands: `..` takes back the name before it. */
  lemma {:induction false} NameAndBackCancels(before: seq<string>, name: string, after: seq<string>)
    requires name != ".."
    ensures Walk(before + [name, ".."] + after) == Walk(before + after)
  {
    if after == [] {
      var entered := before + [name];
      assert before + [name, ".."] + [] == entered + [".."] && before + [] == before;
      assert (entered + [".."])[..|entered|] == entered && entered[..|before|] == before;
      assert (Walk(before).names + [name])[..|Walk(before).names|] == Walk(before).names;
    } else {
      var n := |after| - 1;
      var full, short := before + [name, ".."] + after, before + after;
      assert full[..|full| - 1] == before + [name, ".."] + after[..n];
      assert short[..|short| - 1] == before + after[..n];
      NameAndBackCancels(before, name, after[..n]);
    }
  }

  function Ups(n: nat): (s: seq<string>)
    ensures |s| == n
  {
    seq(n, _ => "..")
  }

  // ---- path.posix.normalize, path.resolve, path.dirname ----

  /** A stack written out again as segments. */
  function Unstack(stack: Stack): (segments: seq<string>)
    ensures |segments| == stack.ups + |stack.names|
  {
    Ups(stack.ups) + stack.names
  }

  function Normal(path: string): Stack {
    Walk(Steps(Split(path)))
  }

  /** `path.posix.normalize` of a relative path. A trailing slash survives; an empty result is `.`. */
  function NormalizeRelative(path: string): string
    requires path != "" && path[0] != '/'
  {
    var body := Join(Unstack(Normal(path)));
    var trailing := path[|path| - 1] == '/';
    (if body == "" then "." else body) + (if trailing then "/" else "")
  }

  /** The text of an absolute location. */
  function Absolute(location: Location): string {
    "/" + Join(location)
  }

  /** `path.resolve(root, relative)`: join, normalise as an absolute path (where `..` at `/` stays at `/`),
      and drop any trailing slash. */
  function ResolveFrom(root: string, relative: string): string {
    Absolute(Clamped(Steps(Split(root + "/" + relative))))
  }

  /** The absolute form of the stack: `..` above the top is dropped. */
  function Clamped(steps: seq<string>): Location {
    Walk(steps).names
  }

  /** How the operating system reads an absolute pathname without `.` and `..`. */
  function Locate(path: string): Location {
    Steps(Split(path))
  }

  lemma LocateAbsolute(location: Location)
    requires AllPlain(location)
    ensures Locate(Absolute(location)) == location
  {
    var text := Join(location);
    assert Absolute(location) == "" + "/" + text;
    SplitAtSlash("", text);
    assert Split("") == [""] && Steps([""]) == [];
    StepsConcat([""], Split(text));
    assert Steps(Split(text)) == location by {
      if location == [] {
        assert text == "";
      } else {
        SplitJoin(location);
        StepsOfPlain(location);
      }
    }
  }

  // ---- Detours in the text ----

  lemma SplitAround(before: string, middle: string, after: string)
    requires NoSlash(middle)
    ensures Split(before + "/" + middle + "/" + after) == Split(before) + [middle] + Split(after)
  {
    SplitNoSlash(middle);
    SplitAtSlash(before, middle);
    SplitAtSlash(before + "/" + middle, after);
  }

  lemma StepsAround(before: string, middle: string, after: string)
    requires NoSlash(middle)
    ensures Steps(Split(before + "/" + middle + "/" + after))
         == Steps(Split(before)) + Steps([middle]) + Steps(Split(after))
  {
    SplitAround(before, middle, after);
    StepsConcat(Split(before), [middle]);
    StepsConcat(Split(before) + [middle], Split(after));
  }

  lemma StepsOfTwo(before: string, after: string)
    ensures Steps(Split(before + "/" + after)) == Steps(Split(before)) + Steps(Split(after))
  {
    SplitAtSlash(before, after);
    StepsConcat(Split(before), Split(after));
  }

  /** Entering a directory and leaving it again does not change where a path leads. */
  lemma DetourCancels(before: string, name: string, after: string)
    requires Plain(name)
    ensures Normal(before + "/" + name + "/../" + after) == Normal(before + "/" + after)
  {
    var start := before + "/" + name;
    assert before + "/" + name + "/../" + after == start + "/" + ".." + "/" + after;
    StepsAround(start, "..", after);
    StepsOfTwo(before, name);
    StepsOfTwo(before, after);
    SplitNoSlash(name);
    StepsOfPlain([name]);
    assert Steps([".."]) == [".."];
    var a, b := Steps(Split(before)), Steps(Split(after));
    assert a + [name] + [".."] + b == a + [name, ".."] + b;
    NameAndBackCancels(a, name, b);
  }

  /** Doubled slashes and `.` segments do not either. */
  lemma StandingStillCancels(before: string, after: string)
    ensures Normal(before + "/./" + after) == Normal(before + "/" + after)
    ensures Normal(before + "//" + after) == Normal(before + "/" + after)
  {
    assert before + "/./" + after == before + "/" + "." + "/" + after;
    assert before + "//" + after == before + "/" + "" + "/" + after;
    StepsAround(before, ".", after);
    StepsAround(before, "", after);
    assert Steps(["."]) == [] && Steps([""]) == [];
    StepsOfTwo(before, after);
    var a, b := Steps(Split(before)), Steps(Split(after));
    assert a + [] + b == a + b;
  }

  /** The text of a location: `/` for the top, and one name and slash per level below it. */
  lemma AbsoluteText(location: Location, name: string)
    ensures Absolute([]) == "/"
    ensures Absolute([name]) == "/" + name
    ensures location != [] ==> Absolute(location + [name]) == Absolute(location) + "/" + name
  {
    if location != [] {
      JoinConcat(location, [name]);
    }
  }

  // ---- What survives normalisation ----

  lemma {:induction false} JoinEmptyIff(segments: seq<string>)
    requires forall i | 0 <= i < |segments| :: segments[i] != ""
    ensures Join(segments) == "" <==> segments == []
  {
  }

  lemma NormalIsPlain(path: string)
    ensures AllPlain(Normal(path).names)
    ensures forall i | 0 <= i < |Unstack(Normal(path))| :: Unstack(Normal(path))[i] == ".." || Plain(Unstack(Normal(path))[i])
  {
    StepsAreNames(Split(path));
    WalkNamesPlain(Steps(Split(path)));
  }

  lemma TrailingSlash(body: string)
    ensures Split(body + "/") == Split(body) + [""]
    ensures Steps(Split(body + "/")) == Steps(Split(body))
  {
    assert body + "/" == body + "/" + "";
    SplitAtSlash(body, "");
    StepsConcat(Split(body), [""]);
    assert Steps([""]) == [];
  }

  lemma {:induction false} StepsOfNames(segments: seq<string>)
    requires forall i | 0 <= i < |segments| :: segments[i] == ".." || Plain(segments[i])
    ensures Steps(segments) == segments
  {
    if segments != [] {
      StepsOfNames(segments[..|segments| - 1]);
    }
  }

  lemma BodySteps(all: seq<string>, body: string)
    requires forall i | 0 <= i < |all| :: all[i] == ".." || Plain(all[i])
    requires body == if all == [] then "." else Join(all)
    ensures Steps(Split(body)) == all && Split(body)[0] == if all == [] then "." else all[0]
  {
    if all == [] {
      SplitNoSlash(".");
    } else {
      SplitJoin(all);
      StepsOfNames(all);
    }
  }

  lemma NormalizedText(path: string, all: seq<string>, body: string)
    requires path != "" && path[0] != '/' && all == Unstack(Normal(path))
    requires (Join(all) == "" <==> all == []) && body == if all == [] then "." else Join(all)
    ensures NormalizeRelative(path) == body || NormalizeRelative(path) == body + "/"
  {
  }

  /** The steps of a normalised path are exactly its stack, written out, and it starts with the first of them. */
  lemma NormalizedSteps(path: string)
    requires path != "" && path[0] != '/'
    ensures Steps(Split(NormalizeRelative(path))) == Unstack(Normal(path))
    ensures Split(NormalizeRelative(path))[0] == if Unstack(Normal(path)) == [] then "." else Unstack(Normal(path))[0]
  {
    var all := Unstack(Normal(path));
    NormalIsPlain(path);
    JoinEmptyIff(all);
    var body := if all == [] then "." else Join(all);
    NormalizedText(path, all, body);
    BodySteps(all, body);
    TrailingSlash(body);
  }

  lemma {:induction false} JoinConcat(a: seq<string>, b: seq<string>)
    requires a != [] && b != []
    ensures Join(a + b) == Join(a) + "/" + Join(b)
  {
    if |a| == 1 {
      assert (a + b)[1..] == b;
    } else {
      assert (a + b)[1..] == a[1..] + b;
      JoinConcat(a[1..], b);
    }
  }

  lemma {:induction false} FirstSegment(s: string)
    ensures s == Split(s)[0] || Split(s)[0] + "/" <= s
  {
    if s != "" && s[0] != '/' {
      FirstSegment(s[1..]);
      var first := Split(s[1..])[0];
      assert Split(s)[0] == [s[0]] + first;
      if s[1..] != first {
        assert s[1..] == first + "/" + s[1..][|first| + 1..];
        assert s == ([s[0]] + first + "/") + s[1..][|first| + 1..];
      } else {
        assert s == [s[0]] + first;
      }
    }
  }

  /** The textual test for a leading `..` looks at exactly the first segment. */
  lemma LeadingDots(s: string)
    ensures s == ".." || "../" <= s <==> Split(s)[0] == ".."
  {
    FirstSegment(s);
    SplitNoSlash("..");
    if "../" <= s {
      assert s == ".." + "/" + s[3..];
      SplitAtSlash("..", s[3..]);
    }
  }
}
