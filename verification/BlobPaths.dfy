/** How the blob store turns a bucket and a key into a path: splitting, checking, joining and
    resolving, all on strings. */
module BlobPaths {
  import opened Common

  /** An absolute path as its segments below the root. */
  type Path = seq<string>

  // ---------------------------------------------------------------- split and join

  /** Python's `s.split("/")`. */
  function Split(s: string): (segments: seq<string>)
    ensures |segments| >= 1
  {
    if s == "" then [""] else Grow(s[0], Split(s[1..]))
  }

  /** The segments with one more character in front. */
  function Grow(c: char, rest: seq<string>): (segments: seq<string>)
    requires |rest| >= 1
    ensures |segments| >= 1
  {
    if c == '/' then [""] + rest else [[c] + rest[0]] + rest[1..]
  }

  function Join(segments: seq<string>): string
    requires |segments| >= 1
  {
    if |segments| == 1 then segments[0] else segments[0] + "/" + Join(segments[1..])
  }

  lemma {:induction false} JoinSplit(s: string)
    ensures Join(Split(s)) == s
  {
    if s != "" {
      JoinSplit(s[1..]);
      var rest := Split(s[1..]);
      if s[0] == '/' {
        assert ([""] + rest)[1..] == rest;
      } else if |rest| > 1 {
        assert ([[s[0]] + rest[0]] + rest[1..])[1..] == rest[1..];
      }
    }
  }

  lemma {:induction false} SplitConcat(a: string, b: string)
    ensures Split(a + "/" + b) == Split(a) + Split(b)
  {
    var s := a + "/" + b;
    if a == "" {
      assert s[0] == '/' && s[1..] == b;
    } else {
      SplitConcat(a[1..], b);
      assert s[0] == a[0] && s[1..] == a[1..] + "/" + b;
      GrowConcat(a[0], Split(a[1..]), Split(b));
    }
  }

  lemma GrowConcat(c: char, x: seq<string>, y: seq<string>)
    requires |x| >= 1
    ensures Grow(c, x + y) == Grow(c, x) + y
  {
    if c == '/' {
      assert [""] + (x + y) == ([""] + x) + y;
    } else {
      assert (x + y)[0] == x[0] && (x + y)[1..] == x[1..] + y;
    }
  }

  /** Splitting loses nothing. */
  lemma SplitInjective(a: string, b: string)
    requires Split(a) == Split(b)
    ensures a == b
  {
    JoinSplit(a);
    JoinSplit(b);
  }

  // ---------------------------------------------------------------- pathlib

  /** The segments pathlib keeps of an operand: it drops empty ones and `.`. */
  function Parsed(segments: seq<string>): Path {
    if segments == [] then []
    else (if segments[0] == "" || segments[0] == "." then [] else [segments[0]]) + Parsed(segments[1..])
  }

  /** `path / operand`: an absolute operand replaces the path. */
  function Divide(path: Path, operand: string): Path {
    if "/" <= operand then Parsed(Split(operand)) else path + Parsed(Split(operand))
  }

  /** `resolve()` without symbolic links: `..` removes the segment before it, if there is one. */
  function Resolve(done: Path, todo: Path): Path
    decreases |todo|
  {
    if todo == [] then done
    else if todo[0] == ".." then Resolve(if done == [] then [] else done[..|done| - 1], todo[1..])
    else Resolve(done + [todo[0]], todo[1..])
  }

  // ---------------------------------------------------------------- validation

  datatype Part = Bucket | Key

  datatype PathError =
    | Empty(part: Part) | Nul(part: Part) | Backslash(part: Part) | Absolute(part: Part) | Colon(part: Part)
    | DotDotSegment(part: Part) | DotSegment(part: Part) | EmptySegment(part: Part)
    | OutsideBase

  function CheckSegments(part: Part, segments: seq<string>): Option<PathError> {
    if segments == [] then None
    else if segments[0] == ".." then Some(DotDotSegment(part))
    else if segments[0] == "." then Some(DotSegment(part))
    else if segments[0] == "" then Some(EmptySegment(part))
    else CheckSegments(part, segments[1..])
  }

  function CheckPart(part: Part, value: string): Option<PathError> {
    if value == "" then Some(Empty(part))
    else if '\0' in value then Some(Nul(part))
    else if '\\' in value then Some(Backslash(part))
    else if "/" <= value then Some(Absolute(part))
    else if ':' in value then Some(Colon(part))
    else CheckSegments(part, Split(value))
  }

  function ValidatePath(base: Path, bucket: string, key: string): Result<Path, PathError> {
    match CheckPart(Bucket, bucket)
    case Some(e) => Failure(e)
    case None =>
      match CheckPart(Key, key)
      case Some(e) => Failure(e)
      case None =>
        var full := Resolve([], Divide(Divide(base, bucket), key));
        if base <= full then Success(full) else Failure(OutsideBase)
  }

  // ---------------------------------------------------------------- what is accepted, and where it leads

  predicate Ordinary(segment: string) {
    segment != "" && segment != "." && segment != ".."
  }

  /** A resolved path has only ordinary segments. */
  ghost predicate Resolved(path: Path) {
    forall k | 0 <= k < |path| :: Ordinary(path[k])
  }

  type ResolvedPath = path: Path | Resolved(path) witness []

  /** The rule in one sentence: no forbidden character, and only ordinary segments. */
  ghost predicate Clean(value: string) {
    '\0' !in value && '\\' !in value && ':' !in value && Resolved(Split(value))
  }

  lemma {:induction false} SegmentsChecked(part: Part, segments: seq<string>)
    ensures CheckSegments(part, segments).None? <==> Resolved(segments)
  {
    if segments != [] {
      SegmentsChecked(part, segments[1..]);
      if Resolved(segments[1..]) && Ordinary(segments[0]) {
        forall k | 0 <= k < |segments| ensures Ordinary(segments[k]) {
          if k > 0 { assert segments[k] == segments[1..][k - 1]; }
        }
      }
    }
  }

  // ---------------------------------------------------------------- what is reported

  /** The first segment that is not ordinary is this one. */
  ghost predicate FirstFaulty(segments: seq<string>, segment: string) {
    !Ordinary(segment) && exists k | 0 <= k < |segments| ::
      segments[k] == segment && forall j | 0 <= j < k :: Ordinary(segments[j])
  }

  ghost predicate PlainRelative(value: string) {
    value != "" && value[0] != '/' && '\0' !in value && '\\' !in value && ':' !in value
  }

  /** What is wrong with a value, character by character and segment by segment: exactly one error fits
      a value that is not clean. */
  ghost predicate IsFault(part: Part, value: string, e: PathError) {
    && !e.OutsideBase? && e.part == part
    && match e
       case Empty(_) => value == ""
       case Nul(_) => '\0' in value
       case Backslash(_) => '\\' in value && '\0' !in value
       case Absolute(_) => value != "" && value[0] == '/' && '\0' !in value && '\\' !in value
       case Colon(_) => ':' in value && value[0] != '/' && '\0' !in value && '\\' !in value
       case DotDotSegment(_) => PlainRelative(value) && FirstFaulty(Split(value), "..")
       case DotSegment(_) => PlainRelative(value) && FirstFaulty(Split(value), ".")
       case EmptySegment(_) => PlainRelative(value) && FirstFaulty(Split(value), "")
       case OutsideBase => false
  }

  lemma {:induction false} FirstFaultyTail(segments: seq<string>, segment: string)
    requires segments != []
    ensures FirstFaulty(segments, segment) <==>
            if Ordinary(segments[0]) then FirstFaulty(segments[1..], segment) else segments[0] == segment
  {
    if Ordinary(segments[0]) && FirstFaulty(segments[1..], segment) {
      var k :| 0 <= k < |segments[1..]| && segments[1..][k] == segment
               && forall j | 0 <= j < k :: Ordinary(segments[1..][j]);
      assert segments[k + 1] == segment;
      forall j | 0 <= j < k + 1 ensures Ordinary(segments[j]) {
        if j > 0 { assert segments[j] == segments[1..][j - 1]; }
      }
    }
    if Ordinary(segments[0]) && FirstFaulty(segments, segment) {
      var k :| 0 <= k < |segments| && segments[k] == segment && forall j | 0 <= j < k :: Ordinary(segments[j]);
      assert segments[1..][k - 1] == segment;
      forall j | 0 <= j < k - 1 ensures Ordinary(segments[1..][j]) { assert segments[1..][j] == segments[j + 1]; }
    }
  }

  lemma {:induction false} SegmentFaults(part: Part, segments: seq<string>)
    ensures var e := CheckSegments(part, segments);
            && (e == Some(DotDotSegment(part)) <==> FirstFaulty(segments, ".."))
            && (e == Some(DotSegment(part)) <==> FirstFaulty(segments, "."))
            && (e == Some(EmptySegment(part)) <==> FirstFaulty(segments, ""))
            && (e.None? || e.value in {DotDotSegment(part), DotSegment(part), EmptySegment(part)})
  {
    if segments != [] {
      SegmentFaults(part, segments[1..]);
      FirstFaultyTail(segments, "..");
      FirstFaultyTail(segments, ".");
      FirstFaultyTail(segments, "");
    }
  }

  lemma PartFaults(part: Part, value: string, e: PathError)
    ensures CheckPart(part, value) == Some(e) <==> IsFault(part, value, e)
  {
    SegmentFaults(part, Split(value));
  }

  /** Of two values the bucket is reported first, and of each value its first fault, in this order: empty,
      NUL, backslash, leading slash, colon, and then the first segment that is not ordinary. */
  lemma RejectedPaths(base: Path, bucket: string, key: string, e: PathError)
    requires Resolved(base)
    ensures ValidatePath(base, bucket, key) == Failure(e)
            <==> IsFault(Bucket, bucket, e) || (Clean(bucket) && IsFault(Key, key, e))
  {
    PartFaults(Bucket, bucket, e);
    PartFaults(Key, key, e);
    PartChecked(Bucket, bucket);
    PartChecked(Key, key);
    AcceptedPaths(base, bucket, key);
  }

  lemma PartChecked(part: Part, value: string)
    ensures CheckPart(part, value).None? <==> Clean(value)
    ensures CheckPart(part, value) != Some(OutsideBase)
  {
    SegmentsChecked(part, Split(value));
    PartFaults(part, value, OutsideBase);
    if "/" <= value { assert Split(value)[0] == ""; }
  }

  // ---------------------------------------------------------------- resolving

  /** An absolute path, with `.`, `..` and empty segments, resolved. */
  function Normalised(path: Path): Path { Resolve([], Parsed(path)) }

  /** What may be crossed out of a path: an empty segment or a dot, a segment with the `..` after it, and
      a `..` at the root. */
  ghost predicate Simplifies(path: Path, shorter: Path) {
    || (exists a: Path, b: Path :: path == a + [""] + b && shorter == a + b)
    || (exists a: Path, b: Path :: path == a + ["."] + b && shorter == a + b)
    || (exists a: Path, x: string, b: Path :: Ordinary(x) && path == a + [x, ".."] + b && shorter == a + b)
    || path == [".."] + shorter
  }

  lemma {:induction false} ParsedSplits(a: Path, b: Path)
    ensures Parsed(a + b) == Parsed(a) + Parsed(b)
  {
    if a == [] {
      assert a + b == b;
    } else {
      assert (a + b)[1..] == a[1..] + b;
      ParsedSplits(a[1..], b);
    }
  }

  lemma {:induction false} ResolveSplits(done: Path, a: Path, b: Path)
    ensures Resolve(done, a + b) == Resolve(Resolve(done, a), b)
    decreases |a|
  {
    if a == [] {
      assert a + b == b;
    } else {
      assert (a + b)[1..] == a[1..] + b;
      var done' := if a[0] == ".." then (if done == [] then [] else done[..|done| - 1]) else done + [a[0]];
      ResolveSplits(done', a[1..], b);
    }
  }

  /** The middle of a path counts only by what it adds to what is before it. */
  lemma Crossing(a: Path, m: Path, b: Path)
    requires forall d: Path :: Resolve(d, Parsed(m)) == d
    ensures Normalised(a + m + b) == Normalised(a + b)
  {
    ParsedSplits(a + m, b);
    ParsedSplits(a, m);
    ParsedSplits(a, b);
    ResolveSplits([], Parsed(a) + Parsed(m), Parsed(b));
    ResolveSplits([], Parsed(a), Parsed(m));
    ResolveSplits([], Parsed(a), Parsed(b));
  }

  lemma ParentCancels(d: Path, x: string)
    requires Ordinary(x)
    ensures Resolve(d, Parsed([x, ".."])) == d
  {
    assert [x, ".."][1..] == [".."];
    assert Parsed([".."]) == [".."];
    assert Parsed([x, ".."]) == [x, ".."];
    assert (d + [x])[..|d|] == d;
  }

  /** Crossing out keeps the result, and a path with nothing to cross out is its own result; so the
      result is what is left when everything has been crossed out. */
  lemma NormalForm(path: Path, shorter: Path)
    ensures Simplifies(path, shorter) ==> Normalised(path) == Normalised(shorter)
    ensures Resolved(Normalised(path))
    ensures Resolved(path) ==> Normalised(path) == path
  {
    ParsedSegments(path);
    ResolveResolved([], Parsed(path));
    if Resolved(path) {
      ParsedKeeps(path);
      ResolveKeeps([], path);
    }
    forall a: Path, b: Path ensures Normalised(a + [""] + b) == Normalised(a + b) { Crossing(a, [""], b); }
    forall a: Path, b: Path ensures Normalised(a + ["."] + b) == Normalised(a + b) { Crossing(a, ["."], b); }
    forall a: Path, x: string, b: Path | Ordinary(x) ensures Normalised(a + [x, ".."] + b) == Normalised(a + b) {
      forall d: Path ensures Resolve(d, Parsed([x, ".."])) == d { ParentCancels(d, x); }
      Crossing(a, [x, ".."], b);
    }
    if path == [".."] + shorter { ParsedSplits([".."], shorter); }
  }

  // ---------------------------------------------------------------- where accepted paths lead

  lemma {:induction false} ParsedKeeps(segments: seq<string>)
    requires Resolved(segments)
    ensures Parsed(segments) == segments
  {
    if segments != [] { ParsedKeeps(segments[1..]); }
  }

  lemma {:induction false} ResolveKeeps(done: Path, todo: Path)
    requires Resolved(todo)
    ensures Resolve(done, todo) == done + todo
    decreases |todo|
  {
    if todo != [] {
      ResolveKeeps(done + [todo[0]], todo[1..]);
      assert done + [todo[0]] + todo[1..] == done + todo;
    }
  }

  lemma {:induction false} ParsedSegments(segments: seq<string>)
    ensures forall k | 0 <= k < |Parsed(segments)| :: Parsed(segments)[k] != "" && Parsed(segments)[k] != "."
  {
    if segments != [] { ParsedSegments(segments[1..]); }
  }

  lemma {:induction false} ResolveResolved(done: Path, todo: Path)
    requires Resolved(done) && forall k | 0 <= k < |todo| :: todo[k] != "" && todo[k] != "."
    ensures Resolved(Resolve(done, todo))
    decreases |todo|
  {
    if todo != [] {
      var done' := if todo[0] == ".." then (if done == [] then [] else done[..|done| - 1]) else done + [todo[0]];
      ResolveResolved(done', todo[1..]);
    }
  }

  /** A clean bucket and a clean key, and nothing else, are accepted; they lead to the base followed
      by their segments, strictly below the base, and the final containment check never fires. */
  lemma AcceptedPaths(base: Path, bucket: string, key: string)
    requires Resolved(base)
    ensures ValidatePath(base, bucket, key).Success? <==> Clean(bucket) && Clean(key)
    ensures ValidatePath(base, bucket, key) != Failure(OutsideBase)
    ensures Clean(bucket) && Clean(key) ==>
              var full := ValidatePath(base, bucket, key).value;
              && full == base + Split(bucket) + Split(key)
              && base < full && |full| >= |base| + 2 && Resolved(full)
  {
    PartChecked(Bucket, bucket);
    PartChecked(Key, key);
    if Clean(bucket) && Clean(key) {
      ParsedKeeps(Split(bucket));
      ParsedKeeps(Split(key));
      assert !("/" <= bucket) && !("/" <= key);
      var full := base + Split(bucket) + Split(key);
      assert Divide(Divide(base, bucket), key) == full;
      ResolveKeeps([], full);
      assert [] + full == full;
    }
  }

  /** Two accepted pairs name the same file exactly when `bucket/key` is the same string. */
  lemma SameFileIff(base: Path, bucket: string, key: string, bucket': string, key': string)
    requires Resolved(base) && Clean(bucket) && Clean(key) && Clean(bucket') && Clean(key')
    ensures ValidatePath(base, bucket, key) == ValidatePath(base, bucket', key')
            <==> bucket + "/" + key == bucket' + "/" + key'
  {
    var name, name' := bucket + "/" + key, bucket' + "/" + key';
    PathOf(base, bucket, key);
    PathOf(base, bucket', key');
    if base + Split(name) == base + Split(name') {
      assert Split(name) == (base + Split(name))[|base|..];
      assert Split(name') == (base + Split(name'))[|base|..];
      SplitInjective(name, name');
    }
  }

  lemma Associates(a: Path, b: Path, c: Path)
    ensures a + b + c == a + (b + c)
  {
  }

  /** An accepted pair leads to the base followed by the segments of its name. */
  lemma PathOf(base: Path, bucket: string, key: string)
    requires Resolved(base) && Clean(bucket) && Clean(key)
    ensures ValidatePath(base, bucket, key) == Success(base + Split(bucket + "/" + key))
  {
    AcceptedPaths(base, bucket, key);
    SplitConcat(bucket, key);
    Associates(base, Split(bucket), Split(key));
  }
}
