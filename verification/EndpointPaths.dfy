/** Joining a base path and an endpoint path without repeating the segments they share. */
module EndpointPaths {
  import opened Text

  function DropSlashesInFront(s: string): (r: string)
    ensures r != "" ==> r[0] != '/'
  {
    if s != "" && s[0] == '/' then DropSlashesInFront(s[1..]) else s
  }

  /** Without slashes at either end. */
  function Trimmed(s: string): string { DropTrailing(DropSlashesInFront(s), '/') }

  /** The text up to the first slash. */
  function UpToSlash(s: string): (i: nat)
    ensures i <= |s| && '/' !in s[..i] && (i < |s| ==> s[i] == '/')
  {
    if s == "" || s[0] == '/' then 0
    else
      var i := UpToSlash(s[1..]);
      assert s[..i + 1] == [s[0]] + s[1..][..i];
      i + 1
  }

  /** All parts between slashes, empty ones included. */
  function Parts(s: string): (parts: seq<string>)
    ensures parts != [] && forall p | p in parts :: '/' !in p
    decreases |s|
  {
    var i := UpToSlash(s);
    if i == |s| then [s] else [s[..i]] + Parts(s[i + 1..])
  }

  function NonEmpty(parts: seq<string>): (r: seq<string>)
    ensures forall p | p in r :: p != "" && p in parts
  {
    if parts == [] then []
    else
      var before, last := NonEmpty(parts[..|parts| - 1]), parts[|parts| - 1];
      if last == "" then before else before + [last]
  }

  /** The segments of a path. */
  function Segments(path: string): (r: seq<string>)
    ensures Clean(r)
  {
    if Trimmed(path) == "" then [] else NonEmpty(Parts(Trimmed(path)))
  }

  /** What segments look like: neither empty nor containing a slash. */
  predicate Clean(segments: seq<string>) { forall p | p in segments :: p != "" && '/' !in p }

  method SplitEndpointPath(path: string) returns (segments: seq<string>)
    ensures segments == Segments(path)
  {
    var trimmed := Trimmed(path);
    if trimmed == "" { return []; }
    var parts := Parts(trimmed);
    segments := [];
    for i := 0 to |parts|
      invariant segments == NonEmpty(parts[..i])
    {
      assert parts[..i + 1][..i] == parts[..i];
      if parts[i] != "" { segments := segments + [parts[i]]; }
    }
    assert parts[..|parts|] == parts;
  }

  /** The segments with a slash between each two. */
  function Joined(segments: seq<string>): string {
    if segments == [] then "" else if |segments| == 1 then segments[0] else segments[0] + "/" + Joined(segments[1..])
  }

  function PathOf(segments: seq<string>): string { "/" + Joined(segments) }

  /* ---------- splitting a joined path ---------- */

  lemma {:induction false} JoinedEnds(segments: seq<string>)
    requires Clean(segments) && segments != []
    ensures var s := Joined(segments); s != "" && s[0] != '/' && s[|s| - 1] != '/'
  {
    var first := segments[0];
    assert first in segments && first[0] in first && first[|first| - 1] in first;
    if |segments| == 1 {
    } else {
      assert forall p | p in segments[1..] :: p in segments;
      JoinedEnds(segments[1..]);
    }
  }

  lemma {:induction false} SlashAfter(first: string, rest: string)
    requires '/' !in first && (rest == "" || rest[0] == '/')
    ensures UpToSlash(first + rest) == |first|
  {
    if first == "" {
      assert first + rest == rest;
    } else {
      assert first[0] in first && forall c | c in first[1..] :: c in first;
      SlashAfter(first[1..], rest);
      assert (first + rest)[1..] == first[1..] + rest;
    }
  }

  lemma OnePart(first: string)
    requires '/' !in first
    ensures Parts(first) == [first]
  {
    SlashAfter(first, "");
    assert first + "" == first;
  }

  lemma FirstPart(first: string, tail: string)
    requires '/' !in first
    ensures Parts(first + "/" + tail) == [first] + Parts(tail)
  {
    var s := first + ("/" + tail);
    SlashAfter(first, "/" + tail);
    assert s == first + "/" + tail && s[|first| + 1..] == tail && s[..|first|] == first;
  }

  lemma {:induction false} PartsOfJoined(segments: seq<string>)
    requires Clean(segments) && segments != []
    ensures Parts(Joined(segments)) == segments
  {
    hide Parts;
    assert segments[0] in segments;
    if |segments| == 1 {
      OnePart(segments[0]);
    } else {
      assert forall p | p in segments[1..] :: p in segments;
      PartsOfJoined(segments[1..]);
      FirstPart(segments[0], Joined(segments[1..]));
    }
  }

  lemma {:induction false} NonEmptyOfClean(segments: seq<string>)
    requires Clean(segments)
    ensures NonEmpty(segments) == segments
  {
    if segments == [] {
    } else {
      var before := segments[..|segments| - 1];
      assert forall p | p in before :: p in segments;
      NonEmptyOfClean(before);
      assert segments[|segments| - 1] in segments;
      assert segments == before + [segments[|segments| - 1]];
    }
  }

  lemma TrimmedPath(s: string)
    requires s != "" ==> s[0] != '/' && s[|s| - 1] != '/'
    ensures Trimmed("/" + s) == s
  {
    assert ("/" + s)[1..] == s;
    assert DropSlashesInFront(s) == s && DropTrailing(s, '/') == s;
  }

  /** Splitting a joined path gives its segments back. */
  lemma SplitOfJoin(segments: seq<string>)
    requires Clean(segments)
    ensures Segments(PathOf(segments)) == segments
  {
    hide Trimmed, Parts, NonEmpty;
    if segments == [] {
      TrimmedPath("");
    } else {
      hide Joined;
      JoinedEnds(segments);
      TrimmedPath(Joined(segments));
      PartsOfJoined(segments);
      NonEmptyOfClean(segments);
    }
  }

  /* ---------- what segments are ---------- */

  lemma {:induction false} NonEmptyOfConcat(a: seq<string>, b: seq<string>)
    ensures NonEmpty(a + b) == NonEmpty(a) + NonEmpty(b)
  {
    if b == [] {
      assert a + b == a;
    } else {
      assert (a + b)[..|a + b| - 1] == a + b[..|b| - 1];
      NonEmptyOfConcat(a, b[..|b| - 1]);
    }
  }

  lemma {:induction false} PartsOfConcat(a: string, b: string)
    ensures Parts(a + "/" + b) == Parts(a) + Parts(b)
    decreases |a|
  {
    hide Parts;
    var i := UpToSlash(a);
    if i == |a| {
      FirstPart(a, b);
      OnePart(a);
    } else {
      var first, rest := a[..i], a[i + 1..];
      assert a == first + "/" + rest;
      assert a + "/" + b == first + "/" + (rest + "/" + b);
      FirstPart(first, rest + "/" + b);
      FirstPart(first, rest);
      PartsOfConcat(rest, b);
    }
  }

  lemma NonEmptyParts(a: string, b: string)
    ensures NonEmpty(Parts(a + "/" + b)) == NonEmpty(Parts(a)) + NonEmpty(Parts(b))
  {
    hide Parts, NonEmpty;
    PartsOfConcat(a, b);
    NonEmptyOfConcat(Parts(a), Parts(b));
  }

  lemma NoParts()
    ensures NonEmpty(Parts("")) == []
  {
    OnePart("");
    assert [""][..0] == [];
  }

  lemma {:induction false} SlashesInFrontDoNotMatter(s: string)
    ensures NonEmpty(Parts(DropSlashesInFront(s))) == NonEmpty(Parts(s))
  {
    hide Parts, NonEmpty;
    if s != "" && s[0] == '/' {
      assert s == "" + "/" + s[1..];
      NonEmptyParts("", s[1..]);
      NoParts();
      SlashesInFrontDoNotMatter(s[1..]);
    } else {
    }
  }

  lemma {:induction false} SlashesAtTheEndDoNotMatter(s: string)
    ensures NonEmpty(Parts(DropTrailing(s, '/'))) == NonEmpty(Parts(s))
  {
    hide Parts, NonEmpty;
    if s != "" && s[|s| - 1] == '/' {
      assert s == s[..|s| - 1] + "/" + "";
      NonEmptyParts(s[..|s| - 1], "");
      NoParts();
      SlashesAtTheEndDoNotMatter(s[..|s| - 1]);
    } else {
    }
  }

  /** The trimming makes no difference. */
  lemma SegmentsAreNonEmptyParts(path: string)
    ensures Segments(path) == NonEmpty(Parts(path))
  {
    hide Parts, NonEmpty;
    SlashesInFrontDoNotMatter(path);
    SlashesAtTheEndDoNotMatter(DropSlashesInFront(path));
    NoParts();
  }

  /** A path without a slash is its only segment, the empty path has none, and the segments of
      two paths joined by a slash are those of the first and then those of the second. Every
      path is built that way, so this says what its segments are. */
  lemma SegmentsExactly(a: string, b: string)
    ensures Segments("") == []
    ensures a != "" && '/' !in a ==> Segments(a) == [a]
    ensures Segments(a + "/" + b) == Segments(a) + Segments(b)
  {
    hide Parts, NonEmpty, Segments;
    SegmentsAreNonEmptyParts("");
    SegmentsAreNonEmptyParts(a);
    SegmentsAreNonEmptyParts(b);
    SegmentsAreNonEmptyParts(a + "/" + b);
    NoParts();
    NonEmptyParts(a, b);
    if a != "" && '/' !in a {
      OnePart(a);
      NonEmptyOfClean([a]);
    }
  }

  /* ---------- merging ---------- */

  predicate IsSuffix(tail: seq<string>, all: seq<string>) {
    |tail| <= |all| && all[|all| - |tail|..] == tail
  }

  predicate Overlaps(base: seq<string>, endpoint: seq<string>, count: nat) {
    count <= |base| && count <= |endpoint| && base[|base| - count..] == endpoint[..count]
  }

  /** The largest overlap that is at most `count`. */
  function LargestOverlap(base: seq<string>, endpoint: seq<string>, count: nat): (r: nat)
    ensures r <= count && Overlaps(base, endpoint, r)
    ensures forall n | r < n <= count :: !Overlaps(base, endpoint, n)
  {
    if count == 0 || Overlaps(base, endpoint, count) then count else LargestOverlap(base, endpoint, count - 1)
  }

  lemma OverlapFound(base: seq<string>, endpoint: seq<string>, r: nat, count: nat)
    requires r <= count && Overlaps(base, endpoint, r) && forall n | r < n <= count :: !Overlaps(base, endpoint, n)
    ensures LargestOverlap(base, endpoint, count) == r
  {
  }

  /** The endpoint's last segment never counts as shared. */
  function MaxOverlap(base: seq<string>, endpoint: seq<string>): nat {
    if endpoint == [] then 0 else if |base| < |endpoint| - 1 then |base| else |endpoint| - 1
  }

  function Merged(base: seq<string>, endpoint: seq<string>): seq<string> {
    base + endpoint[LargestOverlap(base, endpoint, MaxOverlap(base, endpoint))..]
  }

  method MergeEndpointPath(basePath: string, endpointPath: string) returns (path: string)
    ensures path == PathOf(Merged(Segments(basePath), Segments(endpointPath)))
  {
    var base := SplitEndpointPath(basePath);
    var endpoint := SplitEndpointPath(endpointPath);
    var maxOverlap := if |base| < |endpoint| - 1 then |base| else |endpoint| - 1;
    var overlap := 0;
    var count := maxOverlap;
    while count > 0
      invariant -1 <= count <= maxOverlap && overlap == 0
      invariant forall n | count < n <= maxOverlap && n > 0 :: !Overlaps(base, endpoint, n)
    {
      if base[|base| - count..] == endpoint[..count] {
        overlap := count;
        break;
      }
      count := count - 1;
    }
    OverlapFound(base, endpoint, overlap, if maxOverlap < 0 then 0 else maxOverlap);
    var segments := base + endpoint[overlap..];
    if |segments| == 0 { return "/"; }
    path := "/" + Joined(segments);
  }

  /** What a merged path has to be. */
  predicate Fits(base: seq<string>, endpoint: seq<string>, all: seq<string>) {
    base <= all && IsSuffix(endpoint, all) && |all| > |base|
  }

  lemma MergedFits(base: seq<string>, endpoint: seq<string>)
    requires endpoint != []
    ensures Fits(base, endpoint, Merged(base, endpoint))
  {
    var n := LargestOverlap(base, endpoint, MaxOverlap(base, endpoint));
    var all := Merged(base, endpoint);
    assert all[|all| - |endpoint|..] == base[|base| - n..] + endpoint[n..];
    assert endpoint == endpoint[..n] + endpoint[n..];
  }

  /** Any path that fits and is no longer than both parts together comes from an overlap. */
  lemma FittingOverlaps(base: seq<string>, endpoint: seq<string>, all: seq<string>)
    requires endpoint != [] && Fits(base, endpoint, all) && |all| <= |base| + |endpoint|
    ensures var n := |base| + |endpoint| - |all|;
            n <= MaxOverlap(base, endpoint) && Overlaps(base, endpoint, n) && all == base + endpoint[n..]
  {
    var n := |base| + |endpoint| - |all|;
    var start := |all| - |endpoint|;
    assert base[start..] == all[start..|base|] == endpoint[..n];
    assert all[|base|..] == endpoint[n..];
    assert all == all[..|base|] + all[|base|..];
  }

  /** The merged path is the shortest that is longer than the base, starts with the base and
      ends with the endpoint; it is the only one of its length. */
  lemma MergedIsShortest(base: seq<string>, endpoint: seq<string>, other: seq<string>)
    requires endpoint != []
    ensures Fits(base, endpoint, Merged(base, endpoint))
    ensures Fits(base, endpoint, other) ==>
              |Merged(base, endpoint)| <= |other|
                  && (|other| == |Merged(base, endpoint)| ==> other == Merged(base, endpoint))
  {
    hide Fits, Overlaps;
    MergedFits(base, endpoint);
    if Fits(base, endpoint, other) && |other| <= |base| + |endpoint| {
      FittingOverlaps(base, endpoint, other);
    }
  }

  lemma MergedIsClean(base: seq<string>, endpoint: seq<string>)
    requires Clean(base) && Clean(endpoint)
    ensures Clean(Merged(base, endpoint))
  {
    var n := LargestOverlap(base, endpoint, MaxOverlap(base, endpoint));
    assert forall p | p in endpoint[n..] :: p in endpoint;
    assert forall p | p in Merged(base, endpoint) :: p in base || p in endpoint[n..];
  }

  /** The segments of the merged path are the merged segments, so nothing is lost between the
      two texts and their segments. */
  lemma MergedPathSplits(basePath: string, endpointPath: string)
    ensures Segments(PathOf(Merged(Segments(basePath), Segments(endpointPath)))) ==
            Merged(Segments(basePath), Segments(endpointPath))
  {
    hide Segments, Merged, PathOf, Clean;
    MergedIsClean(Segments(basePath), Segments(endpointPath));
    SplitOfJoin(Merged(Segments(basePath), Segments(endpointPath)));
  }
}
