/** Where a redirect leads: path normalisation, resolution and origins. */
module HttpRedirect {
  import opened Wrappers
  import opened AtParser
  import opened Text
  import opened HttpUrl

  // ---------------------------------------------------------------------------
  // Path normalisation
  // ---------------------------------------------------------------------------

  function PathPart(path: string): string
  {
    path[..Find(path, '?')]
  }

  function Query(path: string): string
  {
    path[Find(path, '?')..]
  }

  /** The segments between slashes. Nothing after a final slash is no segment. */
  function Split(s: string): (segments: seq<string>)
    decreases |s|
    ensures forall x :: x in segments ==> '/' !in x
  {
    var at := Find(s, '/');
    if s == "" then [] else if at == |s| then [s] else [s[..at]] + Split(s[at + 1..])
  }

  function Push(stack: seq<string>, segment: string): seq<string>
  {
    if segment == ".." then if stack == [] then [] else stack[..|stack| - 1]
    else if segment == "." || segment == "" then stack
    else stack + [segment]
  }

  function Collapse(stack: seq<string>, segments: seq<string>): seq<string>
    decreases |segments|
  {
    if segments == [] then stack else Collapse(Push(stack, segments[0]), segments[1..])
  }

  /** Every segment with the slash that precedes it. */
  function Rooted(segments: seq<string>): string
  {
    if segments == [] then "" else "/" + segments[0] + Rooted(segments[1..])
  }

  /** A path that ends at a slash, a "." or a ".." named a directory. */
  predicate NamesDirectory(part: string)
  {
    part != "" && (part[|part| - 1] == '/' || part == "." || part == ".." || EndsWith(part, "/.") || EndsWith(part, "/.."))
  }

  function Rendered(segments: seq<string>, directory: bool): string
  {
    if segments == [] then "/" else Rooted(segments) + if directory then "/" else ""
  }

  function NormalizedPart(part: string): string
  {
    Rendered(Collapse([], Split(part)), NamesDirectory(part))
  }

  function Normalized(path: string): string
  {
    NormalizedPart(PathPart(path)) + Query(path)
  }

  lemma RootedSnoc(segments: seq<string>, last: string)
    ensures Rooted(segments + [last]) == Rooted(segments) + ("/" + last)
  {
    if segments == [] {
      assert [last][1..] == [];
      assert Rooted([last]) == "/" + last + Rooted([]);
    } else {
      assert (segments + [last])[1..] == segments[1..] + [last];
      RootedSnoc(segments[1..], last);
    }
  }

  lemma NextSegment(part: string, i: nat)
    requires i < |part|
    ensures var next := i + Find(part[i..], '/');
            i <= next <= |part|
            && Split(part[i..]) == [part[i..next]] + if next < |part| then Split(part[next + 1..]) else []
  {
    hide Find;
    var next := i + Find(part[i..], '/');
    assert part[i..][..next - i] == part[i..next] && |part[i..]| == |part| - i;
    assert next == |part| ==> part[i..next] == part[i..];
    assert next < |part| ==> part[i..][next - i + 1..] == part[next + 1..];
  }

  lemma CollapseStep(stack: seq<string>, segment: string, rest: seq<string>)
    ensures Collapse(stack, [segment] + rest) == Collapse(Push(stack, segment), rest)
  {
  }

  method KeptSegments(part: string) returns (segments: seq<string>)
    ensures segments == Collapse([], Split(part))
    ensures "" !in segments
  {
    hide Find, Split, Collapse;
    assert part[0..] == part;
    segments := [];
    var i := 0;
    while i < |part|
      invariant i <= |part| + 1
      invariant "" !in segments
      invariant Collapse([], Split(part)) == Collapse(segments, if i <= |part| then Split(part[i..]) else [])
    {
      NextSegment(part, i);
      var next := i + Find(part[i..], '/');
      var segment := part[i..next];
      CollapseStep(segments, segment, if next < |part| then Split(part[next + 1..]) else []);
      if segment == ".." {
        if segments != [] {
          segments := segments[..|segments| - 1];
        }
      } else if segment != "." && segment != "" {
        segments := segments + [segment];
      }
      i := next + 1;
    }
    NothingLeft(segments);
    assert i == |part| ==> part[i..] == "";
  }

  lemma NothingLeft(segments: seq<string>)
    ensures Split("") == [] && Collapse(segments, []) == segments
  {
  }

  lemma RootedPrefix(segments: seq<string>, s: nat)
    requires s < |segments|
    ensures Rooted(segments[..s + 1]) == Rooted(segments[..s]) + ("/" + segments[s])
  {
    assert segments[..s] + [segments[s]] == segments[..s + 1];
    RootedSnoc(segments[..s], segments[s]);
  }

  lemma RootedLength(segments: seq<string>)
    requires "" !in segments
    ensures if segments == [] then Rooted(segments) == "" else |Rooted(segments)| > 1
  {
  }

  method NormalizePath(path: string) returns (out: string)
    ensures out == Normalized(path)
  {
    hide Find, NamesDirectory, Split, Collapse, Rooted;
    var pathPart := PathPart(path);
    var segments := KeptSegments(pathPart);
    out := "/";
    for s := 0 to |segments|
      invariant out == if s == 0 then "/" else Rooted(segments[..s])
    {
      RootedPrefix(segments, s);
      if s == 0 {
        RootedLength(segments[..0]);
      } else {
        out := out + "/";
      }
      out := out + segments[s];
    }
    assert segments[..|segments|] == segments;
    RootedLength(segments);
    if NamesDirectory(pathPart) && |out| > 1 {
      out := out + "/";
    }
    out := out + Query(path);
  }

  // ---------------------------------------------------------------------------
  // What a normalised path looks like
  // ---------------------------------------------------------------------------

  /** A segment that names something: not empty, not "." or "..". */
  predicate Clean(segment: string)
  {
    segment != "" && segment != "." && segment != ".." && '/' !in segment
  }

  predicate AllClean(segments: seq<string>)
  {
    forall x :: x in segments ==> Clean(x)
  }

  lemma {:induction false} CollapseIsClean(stack: seq<string>, segments: seq<string>)
    requires AllClean(stack)
    requires forall x :: x in segments ==> '/' !in x
    ensures AllClean(Collapse(stack, segments))
    decreases |segments|
  {
    if segments != [] {
      CollapseIsClean(Push(stack, segments[0]), segments[1..]);
    }
  }

  lemma {:induction false} CollapseKeepsClean(stack: seq<string>, segments: seq<string>)
    requires AllClean(segments)
    ensures Collapse(stack, segments) == stack + segments
    decreases |segments|
  {
    if segments != [] {
      assert Clean(segments[0]);
      CollapseKeepsClean(stack + [segments[0]], segments[1..]);
      assert stack + [segments[0]] + segments[1..] == stack + segments;
    }
  }

  lemma SplitAt(head: string, tail: string)
    requires '/' !in head
    requires tail == "" ==> head != ""
    requires tail != "" ==> tail[0] == '/'
    ensures Split(head + tail) == if tail == "" then [head] else [head] + Split(tail[1..])
  {
    hide Find;
    var s := head + tail;
    assert forall k :: 0 <= k < |head| ==> s[k] == head[k] && head[k] in head;
    assert tail != "" ==> s[|head|] == '/';
    assert Find(s, '/') == |head|;
    assert tail == "" ==> s == head;
    assert s[..|head|] == head;
    assert tail != "" ==> s[|head| + 1..] == tail[1..];
  }

  lemma {:induction false} SplitRooted(segments: seq<string>, tail: string)
    requires AllClean(segments)
    requires tail == "" || tail == "/"
    requires segments != []
    ensures Split((Rooted(segments) + tail)[1..]) == segments
    decreases |segments|
  {
    hide Split, Find;
    var rest := Rooted(segments[1..]) + tail;
    assert Clean(segments[0]);
    assert (Rooted(segments) + tail)[1..] == segments[0] + rest;
    SplitAt(segments[0], rest);
    if |segments| > 1 {
      SplitRooted(segments[1..], tail);
      assert segments == [segments[0]] + segments[1..];
    } else {
      assert segments[1..] == [] && segments == [segments[0]];
      assert Rooted([]) == "" && rest == tail;
      assert tail != "" ==> tail[1..] == "";
      NothingLeft([]);
    }
  }

  lemma SplitLeadingSlash(part: string)
    requires part != "" && part[0] == '/'
    ensures Split(part) == [""] + Split(part[1..])
  {
    assert Find(part, '/') == 0;
    assert part[..0] == "";
  }

  lemma RootedEnds(segments: seq<string>)
    requires segments != []
    ensures EndsWith(Rooted(segments), "/" + segments[|segments| - 1])
    ensures Rooted(segments)[0] == '/'
  {
    var front := segments[..|segments| - 1];
    assert front + [segments[|segments| - 1]] == segments;
    RootedSnoc(front, segments[|segments| - 1]);
  }

  lemma LastSlash(s: string, last: string)
    requires EndsWith(s, "/" + last) && '/' !in last
    ensures FindLast(s, '/') == |s| - 1 - |last| && s[|s| - |last|..] == last
  {
    hide FindLast;
    var at := |s| - 1 - |last|;
    var tail := "/" + last;
    assert s[at..] == tail;
    assert forall k :: at <= k < |s| ==> s[k] == tail[k - at];
    forall k | at < k < |s| ensures s[k] != '/' {
      assert s[k] == last[k - at - 1] && last[k - at - 1] in last;
    }
    LastIs(s, '/', at);
  }

  lemma PlainEnding(s: string, last: string)
    requires EndsWith(s, "/" + last) && Clean(last) && s[0] == '/'
    ensures !NamesDirectory(s)
  {
    hide FindLast;
    LastSlash(s, last);
    assert s[|s| - 1] == last[|last| - 1] && last[|last| - 1] in last;
    if EndsWith(s, "/.") {
      LastSlash(s, ".");
      assert false;
    }
    if EndsWith(s, "/..") {
      LastSlash(s, "..");
      assert false;
    }
  }

  lemma RenderedDirectory(segments: seq<string>, directory: bool)
    requires AllClean(segments) && segments != []
    ensures NamesDirectory(Rendered(segments, directory)) == directory
  {
    hide NamesDirectory, Rooted, EndsWith;
    RootedEnds(segments);
    if directory {
      DirectoryByLastCharacters(Rooted(segments) + "/");
    } else {
      assert Clean(segments[|segments| - 1]);
      PlainEnding(Rooted(segments), segments[|segments| - 1]);
      assert Rooted(segments) + "" == Rooted(segments);
    }
  }

  /** The rendered path splits back into the segments it was made of. */
  lemma SplitRendered(segments: seq<string>, directory: bool)
    requires AllClean(segments)
    ensures Split(Rendered(segments, directory)) == [""] + segments
  {
    hide Find;
    var s := Rendered(segments, directory);
    assert s[0] == '/';
    SplitLeadingSlash(s);
    if segments != [] {
      SplitRooted(segments, if directory then "/" else "");
      assert Rooted(segments) + "" == Rooted(segments);
    } else {
      assert s[1..] == "";
    }
  }

  lemma NormalizedPartIsFixed(part: string)
    ensures NormalizedPart(NormalizedPart(part)) == NormalizedPart(part)
  {
    hide Split, Collapse, NamesDirectory;
    var segments, directory := Collapse([], Split(part)), NamesDirectory(part);
    CollapseIsClean([], Split(part));
    SplitRendered(segments, directory);
    CollapseStep([], "", segments);
    CollapseKeepsClean([], segments);
    assert [] + segments == segments;
    if segments != [] {
      RenderedDirectory(segments, directory);
    }
  }

  lemma NoQueryInRooted(segments: seq<string>)
    requires forall x :: x in segments ==> '?' !in x
    ensures '?' !in Rooted(segments)
  {
    if segments != [] {
      NoQueryInRooted(segments[1..]);
    }
  }

  lemma NoQueryInSplit(s: string)
    requires '?' !in s
    ensures forall x :: x in Split(s) ==> '?' !in x
    decreases |s|
  {
    hide Find;
    var at := Find(s, '/');
    if s != "" && at < |s| {
      NoQueryInSplit(s[at + 1..]);
    }
  }

  lemma NoQueryInCollapse(stack: seq<string>, segments: seq<string>)
    requires forall x :: x in stack + segments ==> '?' !in x
    ensures forall x :: x in Collapse(stack, segments) ==> '?' !in x
    decreases |segments|
  {
    if segments != [] {
      NoQueryInCollapse(Push(stack, segments[0]), segments[1..]);
    }
  }

  /**
   A normalised path starts at the root, carries the query unchanged, and between
   its slashes holds only segments that name something.
   */
  lemma NormalizedIsClean(path: string)
    ensures Normalized(path) != "" && Normalized(path)[0] == '/'
    ensures Query(Normalized(path)) == Query(path)
    ensures PathPart(Normalized(path)) == NormalizedPart(PathPart(path))
    ensures var segments := Split(PathPart(Normalized(path)));
            segments != [] && segments[0] == "" && AllClean(segments[1..])
  {
    hide Find, Split, Collapse, NamesDirectory;
    var part := PathPart(path);
    var segments := Collapse([], Split(part));
    assert '?' !in part;
    NoQueryInSplit(part);
    NoQueryInCollapse([], Split(part));
    NoQueryInRooted(segments);
    QueryStartsAtItsMark(NormalizedPart(part), Query(path));
    CollapseIsClean([], Split(part));
    SplitRendered(segments, NamesDirectory(part));
    assert ([""] + segments)[1..] == segments;
  }

  lemma QueryStartsAtItsMark(part: string, query: string)
    requires '?' !in part
    requires query != "" ==> query[0] == '?'
    ensures PathPart(part + query) == part && Query(part + query) == query
  {
    hide Find;
    var s := part + query;
    assert forall k :: 0 <= k < |part| ==> s[k] == part[k] && part[k] in part;
    assert query != "" ==> s[|part|] == '?';
    assert Find(s, '?') == |part|;
  }

  lemma NormalizeTwiceIsOnce(path: string)
    ensures Normalized(Normalized(path)) == Normalized(path)
  {
    hide Find, NormalizedPart;
    NormalizedIsClean(path);
    NormalizedPartIsFixed(PathPart(path));
  }

  // ---------------------------------------------------------------------------
  // A second reading of "..": a segment survives unless a later ".." takes it
  // ---------------------------------------------------------------------------

  /** Reads from the right; `taken` counts the ".." that have yet to take a segment. */
  function Surviving(segments: seq<string>, taken: nat): seq<string>
    decreases |segments|
  {
    if segments == [] then []
    else
      var front, last := segments[..|segments| - 1], segments[|segments| - 1];
      if last == ".." then Surviving(front, taken + 1)
      else if last == "." || last == "" then Surviving(front, taken)
      else if taken > 0 then Surviving(front, taken - 1)
      else Surviving(front, 0) + [last]
  }

  lemma {:induction false} CollapseSnoc(stack: seq<string>, segments: seq<string>, last: string)
    ensures Collapse(stack, segments + [last]) == Push(Collapse(stack, segments), last)
    decreases |segments|
  {
    if segments == [] {
      assert [last][1..] == [];
      assert [] + [last] == [last];
    } else {
      assert (segments + [last])[1..] == segments[1..] + [last];
      CollapseSnoc(Push(stack, segments[0]), segments[1..], last);
    }
  }

  function DropLast(stack: seq<string>, n: nat): seq<string>
  {
    if n >= |stack| then [] else stack[..|stack| - n]
  }

  lemma DropLastAfterPush(stack: seq<string>, segment: string, n: nat)
    ensures DropLast(Push(stack, ".."), n) == DropLast(stack, n + 1)
    ensures DropLast(stack + [segment], n) == if n > 0 then DropLast(stack, n - 1) else DropLast(stack, 0) + [segment]
  {
  }

  lemma {:induction false} SurvivingIsCollapse(segments: seq<string>, taken: nat)
    ensures Surviving(segments, taken) == DropLast(Collapse([], segments), taken)
    decreases |segments|
  {
    if segments == [] {
      NothingLeft([]);
    } else {
      hide Collapse, DropLast;
      var front, last := segments[..|segments| - 1], segments[|segments| - 1];
      assert front + [last] == segments;
      CollapseSnoc([], front, last);
      DropLastAfterPush(Collapse([], front), last, taken);
      if last == ".." {
        SurvivingIsCollapse(front, taken + 1);
      } else if last == "." || last == "" {
        SurvivingIsCollapse(front, taken);
      } else if taken > 0 {
        SurvivingIsCollapse(front, taken - 1);
      } else {
        SurvivingIsCollapse(front, 0);
      }
    }
  }

  /** The segment stack keeps exactly the segments no later ".." takes. */
  lemma StackKeepsTheSurviving(part: string)
    ensures Collapse([], Split(part)) == Surviving(Split(part), 0)
  {
    SurvivingIsCollapse(Split(part), 0);
  }

  // ---------------------------------------------------------------------------
  // Section 5.2.4 of RFC 3986, "Remove Dot Segments", for a path from the root
  // ---------------------------------------------------------------------------

  /** Removes the last segment of the output and the slash before it. */
  function WithoutLast(output: string): string
  {
    output[..FindLast(output, '/')]
  }

  /** Rules 2B, 2C and 2E. Rules 2A and 2D never apply to a path from the root. */
  function RemoveDotSegments(input: string, output: string): string
    requires input == "" || input[0] == '/'
    decreases |input|
  {
    if input == "" then output
    else if StartsWith(input, "/./") then RemoveDotSegments(input[2..], output)
    else if input == "/." then output + "/"
    else if StartsWith(input, "/../") then RemoveDotSegments(input[3..], WithoutLast(output))
    else if input == "/.." then WithoutLast(output) + "/"
    else
      var end := 1 + Find(input[1..], '/');
      RemoveDotSegments(input[end..], output + input[..end])
  }

  /** No segment but the last is empty. */
  predicate NoEmptySegment(part: string)
  {
    forall k :: 0 <= k < |part| - 1 ==> !(part[k] == '/' && part[k + 1] == '/')
  }

  /** One step of the rules, by what the first segment is. */
  lemma RemoveDotsStep(x: string, tail: string, output: string)
    requires '/' !in x && (tail == "" || tail[0] == '/')
    ensures RemoveDotSegments("/" + x + tail, output) ==
            if x == "." then if tail == "" then output + "/" else RemoveDotSegments(tail, output)
            else if x == ".." then if tail == "" then WithoutLast(output) + "/" else RemoveDotSegments(tail, WithoutLast(output))
            else RemoveDotSegments(tail, output + ("/" + x))
  {
    hide Find, WithoutLast, RemoveDotSegments;
    var input := "/" + x + tail;
    FirstSegmentEnds(x, tail);
    assert input[..1 + |x|] == "/" + x && input[1 + |x|..] == tail;
    FirstSegmentIs(x, tail, ".");
    FirstSegmentIs(x, tail, "..");
    FirstRuleApplies(input, output);
    assert "/" + "." + "/" == "/./" && "/" + ".." + "/" == "/../" && "/" + "." == "/." && "/" + ".." == "/..";
  }

  /** The rules, one unfolding of them. */
  lemma FirstRuleApplies(input: string, output: string)
    requires input != "" && input[0] == '/'
    ensures RemoveDotSegments(input, output) ==
            if StartsWith(input, "/./") then RemoveDotSegments(input[2..], output)
            else if input == "/." then output + "/"
            else if StartsWith(input, "/../") then RemoveDotSegments(input[3..], WithoutLast(output))
            else if input == "/.." then WithoutLast(output) + "/"
            else RemoveDotSegments(input[1 + Find(input[1..], '/')..], output + input[..1 + Find(input[1..], '/')])
  {
    hide Find, WithoutLast;
  }

  lemma FirstSegmentEnds(x: string, tail: string)
    requires '/' !in x && (tail == "" || tail[0] == '/')
    ensures 1 + Find(("/" + x + tail)[1..], '/') == 1 + |x|
  {
    hide Find;
    var rest := ("/" + x + tail)[1..];
    assert forall k :: 0 <= k < |x| ==> rest[k] == x[k] && x[k] in x;
    assert tail != "" ==> rest[|x|] == '/';
  }

  lemma FirstSegmentIs(x: string, tail: string, name: string)
    requires '/' !in x && (tail == "" || tail[0] == '/') && '/' !in name
    ensures StartsWith("/" + x + tail, "/" + name + "/") <==> x == name && tail != ""
    ensures "/" + x + tail == "/" + name <==> x == name && tail == ""
  {
    var input := "/" + x + tail;
    assert tail != "" ==> tail == "/" + tail[1..];
    assert tail != "" ==> input == "/" + x + "/" + tail[1..];
    if StartsWith(input, "/" + name + "/") {
      FirstSegmentEnds(x, tail);
      FirstSegmentEnds(name, "/" + input[|name| + 2..]);
      assert input == "/" + name + ("/" + input[|name| + 2..]);
      assert x == input[1..1 + |x|] == input[1..1 + |name|] == name;
    } else if input == "/" + name {
      FirstSegmentEnds(x, tail);
      FirstSegmentEnds(name, "");
      assert input == "/" + name + "";
      assert x == input[1..1 + |x|] == input[1..1 + |name|] == name;
    }
  }

  lemma WithoutLastPops(stack: seq<string>)
    requires AllClean(stack)
    ensures WithoutLast(Rooted(stack)) == Rooted(Push(stack, ".."))
  {
    if stack != [] {
      var front, last := stack[..|stack| - 1], stack[|stack| - 1];
      assert Clean(last);
      assert front + [last] == stack;
      RootedSnoc(front, last);
      assert EndsWith(Rooted(stack), "/" + last);
      LastSlash(Rooted(stack), last);
    }
  }

  lemma DirectoryByLastCharacters(t: string)
    requires t != "" && t[0] == '/'
    ensures var n := |t|;
            NamesDirectory(t) <==>
            || t[n - 1] == '/'
            || (n >= 2 && t[n - 2] == '/' && t[n - 1] == '.')
            || (n >= 3 && t[n - 3] == '/' && t[n - 2] == '.' && t[n - 1] == '.')
  {
    var n := |t|;
    assert n >= 2 ==> t[n - 2..] == [t[n - 2], t[n - 1]];
    assert n >= 3 ==> t[n - 3..] == [t[n - 3], t[n - 2], t[n - 1]];
  }

  lemma TailNamesDirectory(front: string, tail: string)
    requires front != "" && front[0] == '/' && tail != "" && tail[0] == '/'
    ensures NamesDirectory(front + tail) == NamesDirectory(tail)
  {
    hide NamesDirectory;
    var s, d := front + tail, |front|;
    DirectoryByLastCharacters(s);
    DirectoryByLastCharacters(tail);
    assert s[|s| - 1] == tail[|tail| - 1] && s[d] == '/';
    assert |tail| >= 2 ==> s[|s| - 2] == tail[|tail| - 2];
    assert |tail| >= 3 ==> s[|s| - 3] == tail[|tail| - 3];
  }

  lemma {:induction false} RemoveDotsIsCollapse(input: string, stack: seq<string>)
    requires input != "" && input[0] == '/' && NoEmptySegment(input) && AllClean(stack)
    ensures RemoveDotSegments(input, Rooted(stack)) == Rendered(Collapse(stack, Split(input[1..])), NamesDirectory(input))
    decreases |input|
  {
    hide Find, NamesDirectory, Collapse, Split, RemoveDotSegments, WithoutLast;
    var end := 1 + Find(input[1..], '/');
    var x, tail := input[1..end], input[end..];
    assert input == "/" + x + tail;
    assert tail != "" ==> tail[0] == '/' by {
      assert tail != "" ==> tail[0] == input[1..][end - 1];
    }
    assert x == "" ==> tail == "";
    RemoveDotsStep(x, tail, Rooted(stack));
    WithoutLastPops(stack);
    RootedSnoc(stack, x);
    if x == "" {
      assert input == "/";
      OnlyASlash(stack);
      assert Rooted([]) + "/" == "/";
    } else {
      SplitAt(x, tail);
      assert input[1..] == x + tail;
      CollapseStep(stack, x, if tail == "" then [] else Split(tail[1..]));
      NothingLeft(Push(stack, x));
      if tail == "" {
        assert [x] + [] == [x];
        EndsAtSegment(x);
        assert input == "/" + x;
        NothingRemoved(Rooted(stack) + ("/" + x));
      } else {
        assert forall k :: 0 <= k < |tail| ==> tail[k] == input[end + k];
        TailNamesDirectory("/" + x, tail);
        RemoveDotsIsCollapse(tail, Push(stack, x));
      }
    }
  }

  lemma NothingRemoved(output: string)
    ensures RemoveDotSegments("", output) == output
  {
  }

  lemma OnlyASlash(stack: seq<string>)
    ensures RemoveDotSegments("/", Rooted(stack)) == Rooted(stack) + "/"
    ensures Collapse(stack, Split("/"[1..])) == stack
    ensures NamesDirectory("/")
  {
    assert "/"[1..] == "" && "/"[..1] == "/";
    assert Find("", '/') == 0;
  }

  lemma EndsAtSegment(x: string)
    requires x != "" && '/' !in x
    ensures NamesDirectory("/" + x) == (x == "." || x == "..")
  {
    hide NamesDirectory;
    if Clean(x) {
      PlainEnding("/" + x, x);
    } else {
      DotsNameDirectories();
      assert "/" + "." == "/." && "/" + ".." == "/..";
    }
  }

  lemma DotsNameDirectories()
    ensures NamesDirectory("/.") && NamesDirectory("/..")
  {
  }

  /** Without empty segments, normalising is removing dot segments as the RFC says. */
  lemma NormalizedIsDotsRemoved(path: string)
    requires path != "" && path[0] == '/'
    ensures NoEmptySegment(PathPart(path)) ==>
              Normalized(path) == RemoveDotSegments(PathPart(path), "") + Query(path)
  {
    hide Find, NamesDirectory, Collapse, Split, RemoveDotSegments;
    var part := PathPart(path);
    assert part != "" && part[0] == '/';
    if NoEmptySegment(part) {
      RemoveDotsIsCollapse(part, []);
      SplitLeadingSlash(part);
      CollapseStep([], "", Split(part[1..]));
    }
  }

  // --- and, where no ".." can take an empty segment away again, only then ---

  lemma {:induction false} RootedHasNoEmpty(segments: seq<string>)
    requires AllClean(segments)
    ensures NoEmptySegment(Rooted(segments))
    ensures segments != [] ==> Rooted(segments)[0] == '/' && Rooted(segments)[|Rooted(segments)| - 1] != '/'
    decreases |segments|
  {
    if segments != [] {
      var first, rest := segments[0], Rooted(segments[1..]);
      assert Clean(first);
      RootedHasNoEmpty(segments[1..]);
      var s := "/" + first + rest;
      assert s == Rooted(segments);
      forall k | 0 <= k < |s| - 1 ensures !(s[k] == '/' && s[k + 1] == '/') {
        if k < |first| {
          assert s[k + 1] == first[k] && first[k] in first;
        } else if k == |first| {
          assert s[k] == first[k - 1] && first[k - 1] in first;
        } else {
          assert s[k] == rest[k - 1 - |first|] && s[k + 1] == rest[k - |first|];
        }
      }
      if rest == "" {
        assert s[|s| - 1] == first[|first| - 1] && first[|first| - 1] in first;
      } else {
        assert s[|s| - 1] == rest[|rest| - 1];
      }
    }
  }

  lemma NormalizedHasNoEmpty(part: string)
    ensures NoEmptySegment(NormalizedPart(part))
  {
    hide Split, Collapse, NamesDirectory, Rooted;
    var segments := Collapse([], Split(part));
    CollapseIsClean([], Split(part));
    RootedHasNoEmpty(segments);
    assert Rooted(segments) + "" == Rooted(segments);
  }

  /** The first segment of a rooted input, and the input behind it. */
  lemma FirstSegment(input: string) returns (x: string, tail: string)
    requires input != "" && input[0] == '/'
    ensures '/' !in x && (tail == "" || tail[0] == '/') && input == "/" + x + tail && |tail| < |input|
    ensures Split(input[1..]) == if tail == "" && x == "" then [] else if tail == "" then [x] else [x] + Split(tail[1..])
  {
    hide Find, Split;
    var end := 1 + Find(input[1..], '/');
    x, tail := input[1..end], input[end..];
    assert tail != "" ==> tail[0] == input[1..][end - 1];
    assert input[1..] == x + tail;
    if tail == "" && x == "" {
      NothingLeft([]);
    } else {
      SplitAt(x, tail);
    }
  }

  /** Without "..", whatever input is left puts a slash behind the output it finds. */
  lemma {:induction false} DotsRemovedExtends(input: string, output: string)
    requires input != "" && input[0] == '/' && ".." !in Split(input[1..])
    ensures output + "/" <= RemoveDotSegments(input, output)
    decreases |input|
  {
    hide Split, RemoveDotSegments, WithoutLast;
    var x, tail := FirstSegment(input);
    assert x != "..";
    RemoveDotsStep(x, tail, output);
    if tail == "" {
      NothingRemoved(output + ("/" + x));
    } else if x == "." {
      DotsRemovedExtends(tail, output);
    } else {
      DotsRemovedExtends(tail, output + ("/" + x));
      assert output + "/" <= output + ("/" + x) + "/";
    }
  }

  lemma EmptyInTail(x: string, tail: string)
    requires '/' !in x && (tail == "" || tail[0] == '/') && (x != "" || tail == "")
    ensures NoEmptySegment("/" + x + tail) <==> NoEmptySegment(tail)
  {
    var s, n := "/" + x + tail, 1 + |x|;
    assert forall k :: 0 <= k < |tail| ==> s[n + k] == tail[k];
    assert forall k :: 1 <= k < n ==> s[k] == x[k - 1] && x[k - 1] in x;
    if !NoEmptySegment(tail) {
      var k :| 0 <= k < |tail| - 1 && tail[k] == '/' && tail[k + 1] == '/';
      assert s[n + k] == '/' && s[n + k + 1] == '/';
    }
    if !NoEmptySegment(s) {
      var k :| 0 <= k < |s| - 1 && s[k] == '/' && s[k + 1] == '/';
      assert tail[k - n] == '/' && tail[k - n + 1] == '/';
    }
  }

  /** Without "..", an empty segment of the input is one of the result. */
  lemma {:induction false} EmptyIsKept(input: string, output: string)
    requires input != "" && input[0] == '/' && ".." !in Split(input[1..]) && !NoEmptySegment(input)
    ensures !NoEmptySegment(RemoveDotSegments(input, output))
    decreases |input|
  {
    hide Split, RemoveDotSegments, WithoutLast;
    var x, tail := FirstSegment(input);
    assert x != "..";
    RemoveDotsStep(x, tail, output);
    if x == "" && tail != "" {
      DotsRemovedExtends(tail, output + ("/" + x));
      var r := RemoveDotSegments(tail, output + ("/" + x));
      var front := output + ("/" + x) + "/";
      assert front <= r && front[|output|] == '/' && front[|output| + 1] == '/';
      assert r[|output|] == '/' && r[|output| + 1] == '/';
    } else {
      EmptyInTail(x, tail);
      assert tail != "";
      EmptyIsKept(tail, if x == "." then output else output + ("/" + x));
    }
  }

  /**
   For a path from the root without a ".." segment, normalising is section 5.2.4 of the
   RFC exactly when no segment but the last is empty.
   */
  lemma NormalizedIsDotsRemovedExactly(path: string)
    requires path != "" && path[0] == '/' && ".." !in Split(PathPart(path))
    ensures Normalized(path) == RemoveDotSegments(PathPart(path), "") + Query(path) <==> NoEmptySegment(PathPart(path))
  {
    hide Find, NamesDirectory, Collapse, Split, RemoveDotSegments, NormalizedPart;
    var part := PathPart(path);
    NormalizedIsDotsRemoved(path);
    if !NoEmptySegment(part) {
      SplitLeadingSlash(part);
      EmptyIsKept(part, "");
      NormalizedHasNoEmpty(part);
      SameFront(NormalizedPart(part), RemoveDotSegments(part, ""), Query(path));
    }
  }

  lemma SameFront(a: string, b: string, query: string)
    ensures a + query == b + query ==> a == b
  {
    if a + query == b + query {
      assert |a| == |b|;
      assert a == (a + query)[..|a|] == b;
    }
  }

  lemma SplitAroundEmpty(a: string, b: string)
    requires Clean(a) && Clean(b)
    ensures Split("/" + (a + ("//" + b))) == [""] + ([a] + ([""] + [b]))
  {
    hide Find, Split;
    var tail := "//" + b;
    var part := "/" + (a + tail);
    SplitLeadingSlash(part);
    assert part[1..] == a + tail;
    SplitAt(a, tail);
    assert tail[1..] == "/" + b;
    SplitLeadingSlash("/" + b);
    assert ("/" + b)[1..] == b + "";
    SplitAt(b, "");
  }

  lemma CollapseAroundEmpty(a: string, b: string)
    requires Clean(a) && Clean(b)
    ensures Collapse([], [""] + ([a] + ([""] + [b]))) == [a, b]
  {
    hide Collapse;
    CollapseStep([], "", [a] + ([""] + [b]));
    CollapseStep([], a, [""] + [b]);
    assert [] + [a] == [a];
    CollapseStep([a], "", [b]);
    CollapseStep([a], b, []);
    assert [b] + [] == [b] && [a] + [b] == [a, b];
    NothingLeft([a, b]);
  }

  lemma RemoveDotsKeeps(input: string, x: string, tail: string, output: string, longer: string)
    requires '/' !in x && x != "." && x != ".." && (tail == "" || tail[0] == '/')
    requires input == "/" + x + tail && longer == output + ("/" + x)
    ensures RemoveDotSegments(input, output) == RemoveDotSegments(tail, longer)
  {
    hide RemoveDotSegments;
    RemoveDotsStep(x, tail, output);
  }

  lemma AroundEmptyPieces(a: string, b: string)
    ensures "/" + (a + ("//" + b)) == "/" + a + ("//" + b)
    ensures "//" + b == "/" + "" + ("/" + b) && "/" + b == "/" + b + ""
    ensures "/" + a == "" + ("/" + a) && "/" + a + "/" == "/" + a + ("/" + "")
    ensures "/" + (a + ("//" + b)) == "/" + a + "/" + ("/" + b)
  {
  }

  lemma RemoveDotsAroundEmpty(a: string, b: string)
    requires Clean(a) && Clean(b)
    ensures RemoveDotSegments("/" + (a + ("//" + b)), "") == "/" + (a + ("//" + b))
  {
    hide RemoveDotSegments;
    var part := "/" + (a + ("//" + b));
    AroundEmptyPieces(a, b);
    RemoveDotsKeeps(part, a, "//" + b, "", "/" + a);
    RemoveDotsKeeps("//" + b, "", "/" + b, "/" + a, "/" + a + "/");
    RemoveDotsKeeps("/" + b, b, "", "/" + a + "/", part);
    NothingRemoved(part);
  }

  /** With an empty segment the two differ: normalising drops it, the RFC keeps it. */
  lemma EmptySegmentsVanish(a: string, b: string)
    requires Clean(a) && Clean(b)
    ensures var part := "/" + (a + ("//" + b));
            NormalizedPart(part) == "/" + a + ("/" + b) && RemoveDotSegments(part, "") == part
  {
    hide Split, Collapse, RemoveDotSegments, NamesDirectory;
    var part := "/" + (a + ("//" + b));
    SplitAroundEmpty(a, b);
    CollapseAroundEmpty(a, b);
    RemoveDotsAroundEmpty(a, b);
    assert part == "/" + a + "/" + ("/" + b);
    assert EndsWith(part, "/" + b);
    PlainEnding(part, b);
    RootedSnoc([a], b);
    RootedSnoc([], a);
    assert [a] + [b] == [a, b] && [] + [a] == [a];
    assert Rooted([]) == "";
  }

  // ---------------------------------------------------------------------------
  // Resolving a Location
  // ---------------------------------------------------------------------------

  datatype RedirectError = EmptyLocation | SchemeNotSpoken | PointsNowhere

  function ResolvePath(from: ParsedUrl, location: string): string
  {
    if location != "" && location[0] == '?' then PathPart(from.path) + location
    else if location != "" && location[0] == '/' then location
    else
      var base := PathPart(from.path);
      var slash := FindLast(base, '/');
      (if slash == |base| then "" else base[..slash + 1]) + location
  }

  function WithoutFragment(location: string): string
  {
    location[..Find(location, '#')]
  }

  predicate IsAbsolute(location: string)
  {
    StartsWith(location, "http://") || StartsWith(location, "https://")
  }

  /** A colon in the first segment names a scheme. */
  predicate NamesScheme(location: string)
  {
    ':' in location[..AuthorityEnd(location)]
  }

  function ResolveRedirect(from: ParsedUrl, fullLocation: string): Result<ParsedUrl, RedirectError>
    requires from.port > 0
  {
    var location := WithoutFragment(fullLocation);
    if location == "" then Err(EmptyLocation)
    else if !IsAbsolute(location) && !StartsWith(location, "//") && NamesScheme(location) then Err(SchemeNotSpoken)
    else
      var resolved :=
        if IsAbsolute(location) then location
        else if StartsWith(location, "//") then (if from.tls then "https:" else "http:") + location
        else PrintUrl(from.(path := Normalized(ResolvePath(from, location))));
      match ParseUrl(resolved)
      case None => Err(PointsNowhere)
      case Some(url) => Ok(url)
  }

  /** Names neither a scheme nor an authority of its own. */
  predicate IsRelative(location: string)
  {
    location != "" && !IsAbsolute(location) && !StartsWith(location, "//") && !NamesScheme(location)
  }

  /**
   A relative redirect keeps scheme, host and port through print and parse, with the
   normalised path, exactly for the hosts a printed URL can carry.
   */
  lemma RelativeRedirectKeepsAuthority(from: ParsedUrl, fullLocation: string)
    requires WellFormed(from)
    requires IsRelative(WithoutFragment(fullLocation))
    ensures var path := Normalized(ResolvePath(from, WithoutFragment(fullLocation)));
            ResolveRedirect(from, fullLocation) == Ok(from.(path := path)) <==> Printable(from)
  {
    hide Normalized, ResolvePath, IsAbsolute, NamesScheme, ParseUrl, PrintUrl;
    var path := Normalized(ResolvePath(from, WithoutFragment(fullLocation)));
    NormalizedIsClean(ResolvePath(from, WithoutFragment(fullLocation)));
    PrintParseRoundTrip(from.(path := path));
  }

  /** A fragment behind a Location changes nothing. */
  lemma FragmentsAreDropped(from: ParsedUrl, location: string, fragment: string)
    requires from.port > 0 && '#' !in location
    ensures ResolveRedirect(from, location + ("#" + fragment)) == ResolveRedirect(from, location)
  {
    hide Find, ParseUrl, Normalized, ResolvePath, NamesScheme, IsAbsolute, PrintUrl;
    var full := location + ("#" + fragment);
    assert forall k :: 0 <= k < |location| ==> full[k] == location[k] && location[k] in location;
    assert full[|location|] == '#' && Find(full, '#') == |location| && full[..|location|] == location;
    assert forall k :: 0 <= k < |location| ==> location[k] in location;
    assert Find(location, '#') == |location| && location[..|location|] == location;
  }

  lemma NothingDropped(location: string)
    requires '#' !in location
    ensures WithoutFragment(location) == location
  {
    hide Find;
    assert forall k :: 0 <= k < |location| ==> location[k] in location;
  }

  /** An absolute Location, and one that names an authority alone, lead where they say. */
  lemma AbsoluteRedirectsAreFollowed(from: ParsedUrl, w: Written)
    requires from.port > 0 && WrittenOk(w) && '#' !in UrlText(w)
    ensures ResolveRedirect(from, UrlText(w)) ==
            Ok(ParsedUrl(w.secure, w.host, if w.port.Some? then w.port.value else if w.secure then 443 else 80,
                         if w.rest != "" && w.rest[0] == '/' then w.rest else "/" + w.rest))
    ensures w.secure == from.tls && '#' !in "//" + (Authority(w) + w.rest) ==>
              ResolveRedirect(from, "//" + (Authority(w) + w.rest)) == ResolveRedirect(from, UrlText(w))
  {
    hide ParseUrl, Authority, Find, NamesScheme, Normalized, ResolvePath, WithoutFragment;
    UrlIsRead(w);
    NothingDropped(UrlText(w));
    var rest := Authority(w) + w.rest;
    SchemeIsAbsolute(w.secure, rest);
    if w.secure == from.tls && '#' !in "//" + rest {
      NothingDropped("//" + rest);
      assert ("//" + rest)[0] == '/';
      assert (if from.tls then "https:" else "http:") + ("//" + rest) == UrlText(w);
    }
  }

  lemma SchemeIsAbsolute(secure: bool, rest: string)
    ensures IsAbsolute((if secure then "https://" else "http://") + rest)
  {
    var s := if secure then "https://" else "http://";
    assert (s + rest)[..|s|] == s;
  }

  lemma ColonEndsTheScheme(scheme: string, rest: string, name: string)
    requires ':' !in scheme && ':' !in name
    ensures name + ":" <= scheme + (":" + rest) ==> scheme == name
  {
    hide Find;
    var location := scheme + (":" + rest);
    assert location[|scheme|] == ':' && forall k :: 0 <= k < |scheme| ==> location[k] == scheme[k] && scheme[k] in scheme;
    assert Find(location, ':') == |scheme| && location[..|scheme|] == scheme;
    if name + ":" <= location {
      assert location[|name|] == (name + ":")[|name|] == ':';
      assert forall k :: 0 <= k < |name| ==> location[k] == (name + ":")[k] == name[k] && name[k] in name;
      assert Find(location, ':') == |name| && location[..|name|] == name;
    }
  }

  /** A Location that names any other scheme is refused. */
  lemma OtherSchemesAreRefused(from: ParsedUrl, scheme: string, rest: string)
    requires from.port > 0 && scheme != "" && scheme != "http" && scheme != "https"
    requires '#' !in scheme + (":" + rest) && ':' !in scheme && '/' !in scheme && '?' !in scheme
    ensures ResolveRedirect(from, scheme + (":" + rest)) == Err(SchemeNotSpoken)
  {
    hide ParseUrl, Find, Normalized, ResolvePath, WithoutFragment;
    var location := scheme + (":" + rest);
    NothingDropped(location);
    assert location[|scheme|] == ':';
    assert forall k :: 0 <= k < |scheme| ==> location[k] == scheme[k] && scheme[k] in scheme;
    ColonEndsTheScheme(scheme, rest, "http");
    ColonEndsTheScheme(scheme, rest, "https");
    assert "http" + ":" == "http://"[..5] && "https" + ":" == "https://"[..6];
    assert "http://" <= location ==> "http" + ":" <= location;
    assert "https://" <= location ==> "https" + ":" <= location;
    assert location[0] == scheme[0] && scheme[0] in scheme;
    var end := AuthorityEnd(location);
    assert end > |scheme|;
    assert location[..end][|scheme|] == ':';
  }

  /** A Location from the root replaces path and query, normalised; the authority stays. */
  lemma RootedReplacesThePath(from: ParsedUrl, part: string, query: string)
    requires WellFormed(from) && Printable(from)
    requires part != "" && part[0] == '/' && !("//" <= part + query) && '?' !in part && '#' !in part + query
    requires query != "" ==> query[0] == '?'
    ensures ResolveRedirect(from, part + query) == Ok(from.(path := NormalizedPart(part) + query))
  {
    hide Find, ParseUrl, PrintUrl, NormalizedPart, Printable, WellFormed, ResolveRedirect, WithoutFragment;
    var location := part + query;
    assert location[0] == '/';
    NothingDropped(location);
    QueryStartsAtItsMark(part, query);
    RelativeRedirectKeepsAuthority(from, location);
  }

  /** A Location that is only a query keeps the path, normalised, and replaces the query. */
  lemma QueryOnlyKeepsThePath(from: ParsedUrl, query: string)
    requires WellFormed(from) && Printable(from)
    requires query != "" && query[0] == '?' && '#' !in query
    ensures ResolveRedirect(from, query) == Ok(from.(path := NormalizedPart(PathPart(from.path)) + query))
  {
    hide Find, ParseUrl, PrintUrl, NormalizedPart, Printable, WellFormed, ResolveRedirect, WithoutFragment;
    NothingDropped(query);
    QueryStartsAtItsMark(PathPart(from.path), query);
    RelativeRedirectKeepsAuthority(from, query);
  }

  /**
   A host with a ':' in it, which a URL can carry in front of the port its scheme implies,
   loses its authority on every relative redirect: printed without the port it reads back
   as something else.
   */
  lemma ColonHostsLoseTheirAuthority(tls: bool, host: string, location: string) returns (from: ParsedUrl)
    requires ':' in host && '@' !in host && '/' !in host && '?' !in host
    requires IsRelative(WithoutFragment(location))
    ensures ParseUrl(Scheme(tls) + (host + (":" + Decimal(DefaultPort(tls))) + "/")) == Some(from)
    ensures from == ParsedUrl(tls, host, DefaultPort(tls), "/") && !Printable(from)
    ensures ResolveRedirect(from, location) != Ok(from.(path := Normalized(ResolvePath(from, WithoutFragment(location)))))
  {
    hide Normalized, ResolvePath, IsRelative, NamesScheme, ParseUrl, PrintUrl, ParseHostPort, Find, ResolveRedirect, WithoutFragment, Decimal, Scheme;
    from := ParsedUrl(tls, host, DefaultPort(tls), "/");
    ReadWithPort(host, DefaultPort(tls), tls);
    PlainAuthority(host, Decimal(DefaultPort(tls)));
    ParseUrlOf(tls, host + (":" + Decimal(DefaultPort(tls))), "/");
    assert WellFormed(from) by {
      assert forall k :: 0 <= k < |host| ==> host[k] in host;
    }
    RelativeRedirectKeepsAuthority(from, location);
  }

  lemma PlainAuthority(host: string, digits: string)
    requires '@' !in host && '/' !in host && '?' !in host && AllDigits(digits)
    ensures var s := host + (":" + digits);
            Find(s, '@') == |s| && forall k :: 0 <= k < |s| ==> s[k] != '/' && s[k] != '?'
  {
    hide Find;
    var s := host + (":" + digits);
    forall k | 0 <= k < |s| ensures s[k] != '@' && s[k] != '/' && s[k] != '?' {
      if k < |host| {
        assert s[k] == host[k] && host[k] in host;
      } else if k > |host| {
        assert s[k] == digits[k - |host| - 1] && IsDigit(s[k]);
      }
    }
  }

  /** The literal of an IPv6 address is such a host. */
  lemma Ipv6LiteralLosesItsAuthority() returns (from: ParsedUrl)
    ensures ParseUrl("http://[::1]:80/") == Some(from) && from.host == "[::1]"
    ensures ResolveRedirect(from, "/x") != Ok(from.(path := Normalized(ResolvePath(from, WithoutFragment("/x")))))
  {
    hide Normalized, ResolvePath, ParseUrl, ResolveRedirect;
    assert WithoutFragment("/x") == "/x" by {
      assert Find("/x", '#') == 2;
    }
    assert IsRelative("/x") by {
      assert AuthorityEnd("/x") == 0 && "/x"[..0] == "";
      assert "/x"[1] != '/' && "/x"[0] != 'h';
    }
    assert "[::1]"[1] == ':';
    from := ColonHostsLoseTheirAuthority(false, "[::1]", "/x");
    EightyIs80();
    assert "http://" + ("[::1]" + ":80" + "/") == "http://[::1]:80/";
  }

  lemma EightyIs80()
    ensures ":" + Decimal(80) == ":80"
  {
    assert Decimal(8) == "8";
    assert Decimal(80) == Decimal(8) + [DigitChar(0)];
  }

  /** Whatever a redirect resolves to is a URL with a host, a port and a rooted path. */
  lemma RedirectsAreWellFormed(from: ParsedUrl, location: string)
    requires from.port > 0
    ensures ResolveRedirect(from, location).Ok? ==> WellFormed(ResolveRedirect(from, location).value)
  {
    hide Normalized, ResolvePath, IsAbsolute, NamesScheme, ParseUrl, PrintUrl, WithoutFragment, WellFormed;
    forall url | ParseUrl(url).Some? ensures WellFormed(ParseUrl(url).value) {
      ParsedIsWellFormed(url);
    }
  }

  /**
   What a path-relative Location means, by segments: the directory of the base path
   followed by the Location's own segments, with the dots taken out of the whole.
   */
  lemma RelativePathExtendsTheDirectory(from: ParsedUrl, location: string) returns (directory: string, rest: string)
    requires WellFormed(from)
    requires location != "" && location[0] != '/' && location[0] != '?'
    ensures PathPart(from.path) == directory + "/" + rest && '/' !in rest
    ensures ResolvePath(from, location) == directory + "/" + location
  {
    hide Find, FindLast;
    var base := PathPart(from.path);
    assert base != "" && base[0] == '/';
    var slash := FindLast(base, '/');
    directory, rest := base[..slash], base[slash + 1..];
    assert base[..slash + 1] == directory + "/";
  }

  // ---------------------------------------------------------------------------
  // Origins and credentials
  // ---------------------------------------------------------------------------

  predicate EqualsIgnoreCase(a: string, b: string)
  {
    |a| == |b| && forall i :: 0 <= i < |a| ==> LowerChar(a[i]) == LowerChar(b[i])
  }

  predicate SameOrigin(a: ParsedUrl, b: ParsedUrl)
  {
    a.tls == b.tls && a.port == b.port && EqualsIgnoreCase(a.host, b.host)
  }

  predicate IsCredentialHeader(name: string)
  {
    ToLower(name) in ["authorization", "cookie", "proxy-authorization"]
  }

  predicate IsRedirectStatus(status: int)
  {
    status in [301, 302, 303, 307, 308]
  }
}
