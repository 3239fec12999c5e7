/** `summarize_directory`: summarize every file below a directory, in the
    order `os.walk` yields them, and join the summaries with newlines.

    The walk is given as the sequence of `(root, files)` steps `os.walk`
    produced, and the recursive `summarize_uri` call on each file path is the
    oracle `child`: it returns the child's summary (`None` for an Atlassian
    link that matched no route) or raises. */
module Directory {
  import opened Text
  import opened Outcomes

  /** One step of `os.walk(directory)`: a directory reached and its file names. */
  datatype WalkStep = WalkStep(root: string, files: seq<string>)

  /** `os.path.join(a, b)` on POSIX paths. */
  function PathJoin(a: string, b: string): string {
    if StartsWith(b, "/") then b
    else if a == "" || EndsWith(a, "/") then a + b
    else a + "/" + b
  }

  /** A root `os.walk(top)` yields: `top` itself, or a directory joined
      onto it (so `top` is followed by a slash, or ends with one). */
  predicate WalkRoot(top: string, root: string) {
    root == top || (StartsWith(root, top) && |top| < |root| && (EndsWith(top, "/") || root[|top|] == '/'))
  }

  /** A name `os.walk` lists among a directory's files: not empty, no slash. */
  predicate FileName(name: string) {
    name != "" && '/' !in name
  }

  /** The steps `os.walk(top)` can yield: roots below `top`, plain file names. */
  predicate WalkOf(top: string, walk: seq<WalkStep>) {
    forall k :: 0 <= k < |walk| ==>
      WalkRoot(top, walk[k].root) && forall f :: 0 <= f < |walk[k].files| ==> FileName(walk[k].files[f])
  }

  /** A file joined onto a root below a non-empty `top` that does not start
      with "http" does not start with "http" either. */
  lemma JoinedNotHttp(top: string, root: string, file: string)
    requires top != "" && !StartsWith(top, "http")
    requires WalkRoot(top, root) && FileName(file)
    ensures !StartsWith(PathJoin(root, file), "http")
  {
    TopThenSlash(top, root, file);
    NotHttpAfter(top, PathJoin(root, file));
  }

  /** A file joined onto a root below `top` starts with `top`, followed by
      a slash unless `top` ends with one. */
  lemma TopThenSlash(top: string, root: string, file: string)
    requires top != "" && WalkRoot(top, root) && FileName(file)
    ensures var p := PathJoin(root, file);
      StartsWith(p, top) && |top| < |p| && (EndsWith(top, "/") || p[|top|] == '/')
  {
    var p := PathJoin(root, file);
    JoinBelowRoot(root, file);
    assert p[..|root|][..|top|] == p[..|top|];
    if root != top {
      assert p[|top|] == p[..|root|][|top|];
    }
  }

  /** A text that starts with `top` and then a slash (or with a `top` ending
      in one) starts with "http" only when `top` does. */
  lemma NotHttpAfter(top: string, p: string)
    requires top != "" && !StartsWith(top, "http")
    requires StartsWith(p, top) && |top| < |p| && (EndsWith(top, "/") || p[|top|] == '/')
    ensures !StartsWith(p, "http")
  {
    if |top| < 4 {
      if EndsWith(top, "/") {
        assert p[|top| - 1] == p[..|top|][|top| - 1];
        SlashBeforeFour(p, |top| - 1);
      } else {
        SlashBeforeFour(p, |top|);
      }
    } else {
      assert p[..4] == p[..|top|][..4];
    }
  }

  /** A joined path starts with its root and then a slash, unless the root
      is empty or already ends with one. */
  lemma JoinBelowRoot(root: string, file: string)
    requires FileName(file)
    ensures |root| < |PathJoin(root, file)| && PathJoin(root, file)[..|root|] == root
    ensures root != "" && !EndsWith(root, "/") ==> PathJoin(root, file)[|root|] == '/'
  {
    assert file[0] != '/';
  }

  /** A slash among the first four characters rules out the prefix "http". */
  lemma SlashBeforeFour(p: string, j: nat)
    requires j < 4 && j < |p| && p[j] == '/'
    ensures !StartsWith(p, "http")
  {
    assert 4 <= |p| ==> p[..4][j] == p[j];
    assert "http"[j] != '/';
  }

  /** No path of such a walk starts with "http". */
  lemma {:induction false} WalkPathsNotHttp(top: string, walk: seq<WalkStep>)
    requires top != "" && !StartsWith(top, "http") && WalkOf(top, walk)
    ensures forall i :: 0 <= i < |WalkPaths(walk)| ==> !StartsWith(WalkPaths(walk)[i], "http")
    decreases |walk|
  {
    if walk != [] {
      var front := walk[..|walk| - 1];
      var last := walk[|walk| - 1];
      assert forall k :: 0 <= k < |front| ==> front[k] == walk[k];
      WalkPathsNotHttp(top, front);
      var a := WalkPaths(front);
      forall i | 0 <= i < |WalkPaths(walk)|
        ensures !StartsWith(WalkPaths(walk)[i], "http")
      {
        if i >= |a| {
          JoinedNotHttp(top, last.root, last.files[i - |a|]);
        }
      }
    }
  }

  /** The paths of one step's files, in the order listed. */
  function StepPaths(step: WalkStep): (r: seq<string>)
    ensures |r| == |step.files|
  {
    seq(|step.files|, i requires 0 <= i < |step.files| => PathJoin(step.root, step.files[i]))
  }

  /** All file paths of a walk, in walk order. */
  function WalkPaths(walk: seq<WalkStep>): seq<string>
    decreases |walk|
  {
    if walk == [] then [] else WalkPaths(walk[..|walk| - 1]) + StepPaths(walk[|walk| - 1])
  }

  /** The child summaries collected in order, stopping at the first child
      that raises; that exception is the outcome. */
  function Collect(paths: seq<string>, child: string -> Result<Option<string>>): (r: Result<seq<Option<string>>>)
    ensures r.Ok? ==> |r.value| == |paths|
    ensures r.Ok? <==> forall i :: 0 <= i < |paths| ==> child(paths[i]).Ok?
    ensures r.Ok? ==> forall i :: 0 <= i < |paths| ==> r.value[i] == child(paths[i]).value
    decreases |paths|
  {
    if paths == [] then Ok([])
    else
      var front := paths[..|paths| - 1];
      assert forall i :: 0 <= i < |front| ==> front[i] == paths[i];
      match Collect(front, child)
      case Raised(e) => Raised(e)
      case Ok(vs) =>
        match child(paths[|paths| - 1])
        case Raised(e) => Raised(e)
        case Ok(v) => Ok(vs + [v])
  }

  /** The paths `summarize_uri` is called on: all of them, or those up to and
      including the first that raises. */
  function CallsMade(paths: seq<string>, child: string -> Result<Option<string>>): seq<string>
    decreases |paths|
  {
    if paths == [] then []
    else
      var front := paths[..|paths| - 1];
      if Collect(front, child).Raised? then CallsMade(front, child) else front + [paths[|paths| - 1]]
  }

  /** Every summary, when none of them is `None`. */
  function AllPresent(vs: seq<Option<string>>): Option<seq<string>>
    decreases |vs|
  {
    if vs == [] then Some([])
    else match (vs[0], AllPresent(vs[1..]))
      case (Some(s), Some(ss)) => Some([s] + ss)
      case _ => None
  }

  /** `"\n".join(summaries)`: a `None` among them raises TypeError. */
  function JoinSummaries(vs: seq<Option<string>>): Result<string> {
    match AllPresent(vs)
    case None => Raised(TypeError)
    case Some(ss) => Ok(Join(ss, "\n"))
  }

  /** What `summarize_directory` returns or raises for a walk. */
  function DirectorySummary(walk: seq<WalkStep>, child: string -> Result<Option<string>>): Result<string> {
    match Collect(WalkPaths(walk), child)
    case Raised(e) => Raised(e)
    case Ok(vs) => JoinSummaries(vs)
  }

  /** The nested loop of `summarize_directory`: one `summarize_uri` call per
      file in walk order, appending each summary, then one join. An
      exception from a child ends the walk and propagates. */
  method SummarizeDirectory(walk: seq<WalkStep>, child: string -> Result<Option<string>>)
    returns (r: Result<string>, calls: seq<string>)
    ensures r == DirectorySummary(walk, child)
    ensures calls == CallsMade(WalkPaths(walk), child)
  {
    var summaries: seq<Option<string>> := [];
    calls := [];
    var w := 0;
    while w < |walk|
      invariant 0 <= w <= |walk|
      invariant calls == WalkPaths(walk[..w])
      invariant Collect(calls, child) == Ok(summaries)
    {
      var step := walk[w];
      var f := 0;
      while f < |step.files|
        invariant 0 <= f <= |step.files|
        invariant calls == WalkPaths(walk[..w]) + StepPaths(step)[..f]
        invariant Collect(calls, child) == Ok(summaries)
      {
        var path := PathJoin(step.root, step.files[f]);
        match child(path) {
          case Raised(e) =>
            RaiseAt(walk, w, f, calls, child);
            calls := calls + [path];
            r := Raised(e);
            return;
          case Ok(v) =>
            ContinueAt(walk, w, f, calls, child);
            calls := calls + [path];
            summaries := summaries + [v];
        }
        f := f + 1;
      }
      WalkStepPaths(walk, w);
      w := w + 1;
    }
    assert walk[..w] == walk;
    NoRaiseCallsAll(calls, child);
    r := JoinSummaries(summaries);
  }

  /** File f of step w summarized: the calls and the summaries grow by one. */
  lemma ContinueAt(walk: seq<WalkStep>, w: nat, f: nat, calls: seq<string>, child: string -> Result<Option<string>>)
    requires w < |walk| && f < |walk[w].files|
    requires calls == WalkPaths(walk[..w]) + StepPaths(walk[w])[..f]
    requires Collect(calls, child).Ok?
    requires child(StepPaths(walk[w])[f]).Ok?
    ensures calls + [StepPaths(walk[w])[f]] == WalkPaths(walk[..w]) + StepPaths(walk[w])[..f + 1]
    ensures Collect(calls + [StepPaths(walk[w])[f]], child)
         == Ok(Collect(calls, child).value + [child(StepPaths(walk[w])[f]).value])
  {
    var path := StepPaths(walk[w])[f];
    assert StepPaths(walk[w])[..f + 1] == StepPaths(walk[w])[..f] + [path];
    CollectStep(calls, path, child);
  }

  /** File f of step w raising: the walk's outcome is its exception, and it
      is the last call. */
  lemma RaiseAt(walk: seq<WalkStep>, w: nat, f: nat, calls: seq<string>, child: string -> Result<Option<string>>)
    requires w < |walk| && f < |walk[w].files|
    requires calls == WalkPaths(walk[..w]) + StepPaths(walk[w])[..f]
    requires Collect(calls, child).Ok?
    requires child(StepPaths(walk[w])[f]).Raised?
    ensures DirectorySummary(walk, child) == Raised(child(StepPaths(walk[w])[f]).error)
    ensures CallsMade(WalkPaths(walk), child) == calls + [StepPaths(walk[w])[f]]
  {
    var path := StepPaths(walk[w])[f];
    var more := calls + [path];
    assert StepPaths(walk[w])[..f + 1] == StepPaths(walk[w])[..f] + [path];
    assert more[..|more| - 1] == calls;
    RaiseInStep(walk, w, f, more, child);
  }

  /** One more file: its summary is appended, or its exception ends the collection. */
  lemma CollectStep(calls: seq<string>, path: string, child: string -> Result<Option<string>>)
    requires Collect(calls, child).Ok?
    ensures (calls + [path])[..|calls|] == calls
    ensures child(path).Ok? ==> Collect(calls + [path], child) == Ok(Collect(calls, child).value + [child(path).value])
  {
    assert (calls + [path])[..|calls|] == calls;
  }

  /** The paths of the first w + 1 walk steps. */
  lemma WalkStepPaths(walk: seq<WalkStep>, w: nat)
    requires w < |walk|
    ensures WalkPaths(walk[..w + 1]) == WalkPaths(walk[..w]) + StepPaths(walk[w])
  {
    assert walk[..w + 1][..w] == walk[..w];
  }

  /** A file of step w raising is the last call of the walk. */
  lemma RaiseInStep(walk: seq<WalkStep>, w: nat, f: nat, calls: seq<string>, child: string -> Result<Option<string>>)
    requires w < |walk| && f < |walk[w].files|
    requires calls == WalkPaths(walk[..w]) + StepPaths(walk[w])[..f + 1]
    requires Collect(calls[..|calls| - 1], child).Ok?
    requires child(calls[|calls| - 1]).Raised?
    ensures DirectorySummary(walk, child) == Raised(child(calls[|calls| - 1]).error)
    ensures CallsMade(WalkPaths(walk), child) == calls
  {
    WalkStepPaths(walk, w);
    WalkPathsPrefix(walk, w + 1);
    PrefixOfConcat(WalkPaths(walk[..w]), StepPaths(walk[w]), f + 1);
    FirstRaiseStops(calls, WalkPaths(walk), child);
  }

  lemma PrefixOfConcat(a: seq<string>, s: seq<string>, k: nat)
    requires k <= |s|
    ensures a + s[..k] <= a + s
  {
    assert (a + s)[..|a| + k] == a + s[..k];
  }

  /** The paths of the first n steps come first among the walk's paths. */
  lemma {:induction false} WalkPathsPrefix(walk: seq<WalkStep>, n: nat)
    requires n <= |walk|
    ensures WalkPaths(walk[..n]) <= WalkPaths(walk)
    decreases |walk| - n
  {
    if n < |walk| {
      WalkPathsPrefix(walk, n + 1);
      WalkStepPaths(walk, n);
    } else {
      assert walk[..n] == walk;
    }
  }

  /** Once a child raises, the walk's outcome is that exception and the
      paths after it are never summarized. */
  lemma FirstRaiseStops(calls: seq<string>, paths: seq<string>, child: string -> Result<Option<string>>)
    requires calls != [] && calls <= paths
    requires Collect(calls[..|calls| - 1], child).Ok?
    requires child(calls[|calls| - 1]).Raised?
    ensures Collect(paths, child) == Raised(child(calls[|calls| - 1]).error)
    ensures CallsMade(paths, child) == calls
  {
    RaisedPrefix(calls, paths[|calls|..], child);
    assert calls + paths[|calls|..] == paths;
  }

  lemma {:induction false} RaisedPrefix(calls: seq<string>, more: seq<string>, child: string -> Result<Option<string>>)
    requires calls != []
    requires Collect(calls[..|calls| - 1], child).Ok?
    requires child(calls[|calls| - 1]).Raised?
    ensures Collect(calls + more, child) == Raised(child(calls[|calls| - 1]).error)
    ensures CallsMade(calls + more, child) == calls
    decreases |more|
  {
    if more == [] {
      assert calls + more == calls;
    } else {
      var front := more[..|more| - 1];
      RaisedPrefix(calls, front, child);
      assert (calls + more)[..|calls + more| - 1] == calls + front;
    }
  }

  /** When every child summarizes, the result is their summaries joined by
      newlines, in walk order, one per file. */
  lemma DirectorySuccess(walk: seq<WalkStep>, child: string -> Result<Option<string>>)
    requires forall i :: 0 <= i < |WalkPaths(walk)| ==>
      child(WalkPaths(walk)[i]).Ok? && child(WalkPaths(walk)[i]).value.Some?
    ensures var paths := WalkPaths(walk);
      DirectorySummary(walk, child) ==
        Ok(Join(seq(|paths|, i requires 0 <= i < |paths| => child(paths[i]).value.value), "\n"))
    ensures CallsMade(WalkPaths(walk), child) == WalkPaths(walk)
  {
    var paths := WalkPaths(walk);
    var vs := Collect(paths, child).value;
    var ss := seq(|paths|, i requires 0 <= i < |paths| => child(paths[i]).value.value);
    AllPresentValues(vs, ss);
    NoRaiseCallsAll(paths, child);
  }

  lemma {:induction false} AllPresentValues(vs: seq<Option<string>>, ss: seq<string>)
    requires |vs| == |ss| && forall i :: 0 <= i < |vs| ==> vs[i] == Some(ss[i])
    ensures AllPresent(vs) == Some(ss)
    decreases |vs|
  {
    if vs != [] {
      AllPresentValues(vs[1..], ss[1..]);
      assert [ss[0]] + ss[1..] == ss;
    }
  }

  /** A child returning `None` makes the join raise TypeError, even though
      every file was summarized. */
  lemma {:induction false} AbsentSummaryRaises(vs: seq<Option<string>>, i: nat)
    requires i < |vs| && vs[i].None?
    ensures JoinSummaries(vs) == Raised(TypeError)
    decreases |vs|
  {
    if i > 0 {
      AbsentSummaryRaises(vs[1..], i - 1);
    }
  }

  lemma {:induction false} NoRaiseCallsAll(paths: seq<string>, child: string -> Result<Option<string>>)
    requires Collect(paths, child).Ok?
    ensures CallsMade(paths, child) == paths
    decreases |paths|
  {
    if paths != [] {
      var front := paths[..|paths| - 1];
      assert front + [paths[|paths| - 1]] == paths;
    }
  }

  /** The first child (in walk order) that raises decides the outcome, and
      the calls stop there: no failure is swallowed. */
  lemma FirstFailurePropagates(walk: seq<WalkStep>, child: string -> Result<Option<string>>, k: nat)
    requires k < |WalkPaths(walk)| && child(WalkPaths(walk)[k]).Raised?
    requires forall j :: 0 <= j < k ==> child(WalkPaths(walk)[j]).Ok?
    ensures DirectorySummary(walk, child) == Raised(child(WalkPaths(walk)[k]).error)
    ensures CallsMade(WalkPaths(walk), child) == WalkPaths(walk)[..k + 1]
  {
    var paths := WalkPaths(walk);
    var calls := paths[..k + 1];
    assert calls[..|calls| - 1] == paths[..k];
    assert Collect(paths[..k], child).Ok?;
    FirstRaiseStops(calls, paths, child);
  }
}
