/**
 * The in-memory router: a history stack of locations, the split of the
 * current location into path and query, segment-wise pattern matching with
 * `:name` parameters, first-match route dispatch and link targets.
 */
module Router {
  import opened Wrappers
  import opened Strings

  /** Captured route parameters, by name. */
  type Params = map<string, string>

  /** `s.split('/').filter(Boolean)`: the non-empty `/`-separated segments. */
  function Segments(s: string): (r: seq<string>)
    ensures forall k :: 0 <= k < |r| ==> r[k] != "" && '/' !in r[k]
  {
    NonEmpty(Split(s, '/'))
  }

  /** A pattern segment that starts with `:` captures instead of comparing. */
  predicate IsParam(segment: string)
  {
    ":" <= segment
  }

  /** The name a parameter segment captures under: the text after the `:`. */
  function ParamName(segment: string): string
    requires IsParam(segment)
  {
    segment[1..]
  }

  /**
   * The loop of `matchPath` from a given point on: walks the segments
   * pairwise, records each parameter into `params` (a later segment with the
   * same name overwrites) and stops at the first literal that differs.
   */
  function MatchFrom(patternParts: seq<string>, pathParts: seq<string>, params: Params): Option<Params>
    requires |patternParts| == |pathParts|
  {
    if patternParts == [] then Some(params)
    else if IsParam(patternParts[0]) then
      MatchFrom(patternParts[1..], pathParts[1..], params[ParamName(patternParts[0]) := pathParts[0]])
    else if patternParts[0] != pathParts[0] then None
    else MatchFrom(patternParts[1..], pathParts[1..], params)
  }

  /** `matchPath(pattern, path)`: the captured parameters, or no match. */
  function Match(pattern: string, path: string): Option<Params>
  {
    var patternParts := Segments(pattern);
    var pathParts := Segments(path);
    if |patternParts| != |pathParts| then None else MatchFrom(patternParts, pathParts, map[])
  }

  /** The loop of `matchPath`, written as the source writes it. */
  method MatchPath(pattern: string, path: string) returns (r: Option<Params>)
    ensures r == Match(pattern, path)
  {
    var patternParts := Segments(pattern);
    var pathParts := Segments(path);
    if |patternParts| != |pathParts| {
      return None;
    }
    var params: Params := map[];
    for i := 0 to |patternParts|
      invariant MatchFrom(patternParts[i..], pathParts[i..], params) == Match(pattern, path)
    {
      assert patternParts[i..][1..] == patternParts[i + 1..];
      assert pathParts[i..][1..] == pathParts[i + 1..];
      if IsParam(patternParts[i]) {
        params := params[ParamName(patternParts[i]) := pathParts[i]];
      } else if patternParts[i] != pathParts[i] {
        return None;
      }
    }
    return Some(params);
  }

  /** Every literal (non-parameter) pattern segment equals the path segment at its position. */
  predicate LiteralsAgree(patternParts: seq<string>, pathParts: seq<string>)
    requires |patternParts| == |pathParts|
  {
    forall k :: 0 <= k < |patternParts| && !IsParam(patternParts[k]) ==> patternParts[k] == pathParts[k]
  }

  /** The parameters a full walk captures: each name bound to the path segment of its last occurrence. */
  function Captures(patternParts: seq<string>, pathParts: seq<string>): Params
    requires |patternParts| == |pathParts|
  {
    if patternParts == [] then map[]
    else
      (if IsParam(patternParts[0]) then map[ParamName(patternParts[0]) := pathParts[0]] else map[])
      + Captures(patternParts[1..], pathParts[1..])
  }

  lemma {:induction false} MatchFromSpec(patternParts: seq<string>, pathParts: seq<string>, params: Params)
    requires |patternParts| == |pathParts|
    ensures MatchFrom(patternParts, pathParts, params) ==
      if LiteralsAgree(patternParts, pathParts) then Some(params + Captures(patternParts, pathParts)) else None
  {
    if patternParts != [] {
      var p, q := patternParts[0], pathParts[0];
      var ps, qs := patternParts[1..], pathParts[1..];
      LiteralsAgreeCons(patternParts, pathParts);
      if IsParam(p) {
        MatchFromSpec(ps, qs, params[ParamName(p) := q]);
        MergeAfterUpdate(params, ParamName(p), q, Captures(ps, qs));
      } else {
        MatchFromSpec(ps, qs, params);
        MergeEmpty(params, Captures(ps, qs));
      }
    } else {
      MergeEmpty(params, map[]);
    }
  }

  /** Binding a name and then merging is merging the binding first. */
  lemma MergeAfterUpdate<K, V>(m: map<K, V>, k: K, v: V, c: map<K, V>)
    ensures m[k := v] + c == m + (map[k := v] + c)
  {
  }

  /** The empty map is a unit of merging. */
  lemma MergeEmpty<K, V>(m: map<K, V>, c: map<K, V>)
    ensures map[] + c == c && m + map[] == m
  {
  }

  /** The literals agree when the first one does (or is a parameter) and the rest agree. */
  lemma LiteralsAgreeCons(patternParts: seq<string>, pathParts: seq<string>)
    requires |patternParts| == |pathParts| && patternParts != []
    ensures LiteralsAgree(patternParts, pathParts) <==>
      (IsParam(patternParts[0]) || patternParts[0] == pathParts[0]) && LiteralsAgree(patternParts[1..], pathParts[1..])
  {
    var ps, qs := patternParts[1..], pathParts[1..];
    if LiteralsAgree(patternParts, pathParts) {
      forall k | 0 <= k < |ps| && !IsParam(ps[k])
        ensures ps[k] == qs[k]
      {
        assert patternParts[k + 1] == ps[k];
      }
    }
    if (IsParam(patternParts[0]) || patternParts[0] == pathParts[0]) && LiteralsAgree(ps, qs) {
      forall k | 0 <= k < |patternParts| && !IsParam(patternParts[k])
        ensures patternParts[k] == pathParts[k]
      {
        if k > 0 {
          assert patternParts[k] == ps[k - 1];
        }
      }
    }
  }

  /**
   * A pattern matches a path exactly when both have the same number of
   * non-empty segments and every literal pattern segment equals the path
   * segment at its position; the parameters are then those captured.
   */
  lemma MatchIff(pattern: string, path: string)
    ensures Match(pattern, path).Some? <==>
      |Segments(pattern)| == |Segments(path)| && LiteralsAgree(Segments(pattern), Segments(path))
    ensures Match(pattern, path).Some? ==>
      Match(pattern, path).value == Captures(Segments(pattern), Segments(path))
  {
    var pp, qp := Segments(pattern), Segments(path);
    if |pp| == |qp| {
      MatchFromSpec(pp, qp, map[]);
      assert map[] + Captures(pp, qp) == Captures(pp, qp);
    }
  }

  /** No later pattern segment captures under the same name as the one at `k`. */
  predicate LastWithName(patternParts: seq<string>, k: int)
    requires 0 <= k < |patternParts| && IsParam(patternParts[k])
  {
    forall j :: k < j < |patternParts| && IsParam(patternParts[j]) ==> ParamName(patternParts[j]) != ParamName(patternParts[k])
  }

  /**
   * The captured names are exactly the parameter names of the pattern, and
   * each holds the path segment, verbatim, at the last position that names it.
   */
  lemma CapturesSpec(patternParts: seq<string>, pathParts: seq<string>)
    requires |patternParts| == |pathParts|
    ensures forall name :: name in Captures(patternParts, pathParts) <==>
      exists k :: 0 <= k < |patternParts| && IsParam(patternParts[k]) && ParamName(patternParts[k]) == name
    ensures forall k :: 0 <= k < |patternParts| && IsParam(patternParts[k]) && LastWithName(patternParts, k) ==>
      Captures(patternParts, pathParts)[ParamName(patternParts[k])] == pathParts[k]
  {
    CapturedNames(patternParts, pathParts);
    CapturedValues(patternParts, pathParts);
  }

  /** The captured names are exactly the parameter names of the pattern. */
  lemma {:induction false} CapturedNames(patternParts: seq<string>, pathParts: seq<string>)
    requires |patternParts| == |pathParts|
    ensures forall name :: name in Captures(patternParts, pathParts) <==>
      exists k :: 0 <= k < |patternParts| && IsParam(patternParts[k]) && ParamName(patternParts[k]) == name
  {
    if patternParts != [] {
      var ps, qs := patternParts[1..], pathParts[1..];
      CapturedNames(ps, qs);
      var c := Captures(patternParts, pathParts);
      forall name
        ensures name in c <==>
          exists k :: 0 <= k < |patternParts| && IsParam(patternParts[k]) && ParamName(patternParts[k]) == name
      {
        if name in Captures(ps, qs) {
          var k :| 0 <= k < |ps| && IsParam(ps[k]) && ParamName(ps[k]) == name;
          assert patternParts[k + 1] == ps[k];
        }
        if exists k :: 0 <= k < |patternParts| && IsParam(patternParts[k]) && ParamName(patternParts[k]) == name {
          var k :| 0 <= k < |patternParts| && IsParam(patternParts[k]) && ParamName(patternParts[k]) == name;
          if k > 0 {
            assert ps[k - 1] == patternParts[k];
          }
        }
      }
    }
  }

  /** Each captured name holds the path segment at the last position that names it. */
  lemma {:induction false} CapturedValues(patternParts: seq<string>, pathParts: seq<string>)
    requires |patternParts| == |pathParts|
    ensures forall k :: 0 <= k < |patternParts| && IsParam(patternParts[k]) && LastWithName(patternParts, k) ==>
      ParamName(patternParts[k]) in Captures(patternParts, pathParts)
      && Captures(patternParts, pathParts)[ParamName(patternParts[k])] == pathParts[k]
  {
    if patternParts != [] {
      var ps, qs := patternParts[1..], pathParts[1..];
      CapturedNames(ps, qs);
      CapturedValues(ps, qs);
      var c := Captures(patternParts, pathParts);
      forall k | 0 <= k < |patternParts| && IsParam(patternParts[k]) && LastWithName(patternParts, k)
        ensures ParamName(patternParts[k]) in c && c[ParamName(patternParts[k])] == pathParts[k]
      {
        if k > 0 {
          LastWithNameTail(patternParts, k);
        } else {
          LastNotCapturedLater(patternParts, pathParts);
        }
      }
    }
  }

  /** The last occurrence of a name past the first segment is also its last one in the rest. */
  lemma LastWithNameTail(patternParts: seq<string>, k: int)
    requires 0 < k < |patternParts| && IsParam(patternParts[k]) && LastWithName(patternParts, k)
    ensures patternParts[1..][k - 1] == patternParts[k] && LastWithName(patternParts[1..], k - 1)
  {
    var ps := patternParts[1..];
    forall j | k - 1 < j < |ps| && IsParam(ps[j])
      ensures ParamName(ps[j]) != ParamName(patternParts[k])
    {
      assert ps[j] == patternParts[j + 1];
    }
  }

  /** A first segment that names its parameter for the last time is not captured again by the rest. */
  lemma LastNotCapturedLater(patternParts: seq<string>, pathParts: seq<string>)
    requires |patternParts| == |pathParts| && patternParts != []
    requires IsParam(patternParts[0]) && LastWithName(patternParts, 0)
    ensures ParamName(patternParts[0]) !in Captures(patternParts[1..], pathParts[1..])
  {
    var ps, qs := patternParts[1..], pathParts[1..];
    CapturedNames(ps, qs);
    forall j | 0 <= j < |ps| && IsParam(ps[j])
      ensures ParamName(ps[j]) != ParamName(patternParts[0])
    {
      assert patternParts[j + 1] == ps[j];
    }
  }

  /** Splitting a text at an inner `/` splits its segments the same way. */
  lemma {:induction false} SplitConcat(x: string, y: string, sep: char)
    ensures Split(x + [sep] + y, sep) == Split(x, sep) + Split(y, sep)
    decreases |x|
  {
    if sep in x {
      var i := IndexOf(x, sep);
      var w, rest := x[..i], x[i + 1..];
      assert x == w + [sep] + rest;
      SplitAtFirst(w, rest, sep);
      RegroupFour(w + [sep], rest, [sep], y);
      SplitAtFirst(w, rest + [sep] + y, sep);
      SplitConcat(rest, y, sep);
      RegroupThree([w], Split(rest, sep), Split(y, sep));
    } else {
      SplitAtFirst(x, y, sep);
    }
  }

  /**
   * Empty segments are ignored: a slash between two texts contributes no
   * segment of its own, so leading, trailing and doubled slashes do not matter.
   */
  lemma SegmentsConcat(x: string, y: string)
    ensures Segments(x + "/" + y) == Segments(x) + Segments(y)
  {
    SplitConcat(x, y, '/');
    NonEmptyAppend(Split(x, '/'), Split(y, '/'));
  }

  /** The segments of a text without `/` are that text, unless it is empty. */
  lemma SegmentsOfWord(w: string)
    requires '/' !in w
    ensures Segments(w) == if w == "" then [] else [w]
  {
  }

  /** A leading or trailing slash changes no segment. */
  lemma SegmentsIgnoreOuterSlashes(s: string)
    ensures Segments("/" + s) == Segments(s)
    ensures Segments(s + "/") == Segments(s)
  {
    SegmentsConcat("", s);
    SegmentsOfWord("");
    assert "" + "/" + s == "/" + s;
    SegmentsConcat(s, "");
    assert s + "/" + "" == s + "/";
  }

  /** The root pattern `/` matches exactly the paths without a non-empty segment, capturing nothing. */
  lemma RootMatchesOnlyEmptyPaths(path: string)
    ensures Match("/", path).Some? <==> Segments(path) == []
    ensures Match("/", path).Some? ==> Match("/", path).value == map[]
  {
    SegmentsIgnoreOuterSlashes("");
    SegmentsOfWord("");
    assert "/" + "" == "/";
  }

  // ---------------------------------------------------------------------
  // The current location

  /**
   * The path and query of a location: the text before the first `?`, and
   * `?` plus the text between the first and a second `?` when that text is
   * non-empty, otherwise the empty string.
   */
  function SplitLocation(location: string): (r: (string, string))
    ensures '?' !in r.0
    ensures r.1 == "" || (|r.1| > 1 && r.1[0] == '?')
  {
    var parts := Split(location, '?');
    (parts[0], if |parts| > 1 && parts[1] != "" then "?" + parts[1] else "")
  }

  /** A location without `?` is all path. */
  lemma SplitLocationNoQuery(location: string)
    requires '?' !in location
    ensures SplitLocation(location) == (location, "")
  {
  }

  /**
   * With `?` after a path: the path is the text before it, and the query is
   * the next `?`-free piece with its `?`, or empty when that piece is empty;
   * whatever follows a second `?` is dropped.
   */
  lemma SplitLocationWithQuery(path: string, query: string, dropped: string)
    requires '?' !in path && '?' !in query
    ensures SplitLocation(path + "?" + query) == (path, if query == "" then "" else "?" + query)
    ensures SplitLocation(path + "?" + query + "?" + dropped) == (path, if query == "" then "" else "?" + query)
  {
    SplitLocationOneQuery(path, query);
    SplitLocationTwoQueries(path, query, dropped);
  }

  lemma SplitLocationOneQuery(path: string, query: string)
    requires '?' !in path && '?' !in query
    ensures SplitLocation(path + "?" + query) == (path, if query == "" then "" else "?" + query)
  {
    SplitAtFirst(path, query, '?');
  }

  lemma SplitLocationTwoQueries(path: string, query: string, dropped: string)
    requires '?' !in path && '?' !in query
    ensures SplitLocation(path + "?" + query + "?" + dropped) == (path, if query == "" then "" else "?" + query)
  {
    SplitAtFirst(query, dropped, '?');
    RegroupFour(path + "?", query, "?", dropped);
    SplitAtFirst(path, query + ['?'] + dropped, '?');
  }

  // ---------------------------------------------------------------------
  // The history stack

  /** `navigate(to)`: one more entry on top. */
  function Push(history: seq<string>, to: string): seq<string>
  {
    history + [to]
  }

  /** `goBack()`: the top entry is dropped unless it is the only one. */
  function Back(history: seq<string>): seq<string>
  {
    if |history| > 1 then history[..|history| - 1] else history
  }

  /** The top entry, with an empty entry read as `/`. */
  function Current(history: seq<string>): string
    requires |history| >= 1
  {
    if history[|history| - 1] == "" then "/" else history[|history| - 1]
  }

  /**
   * Going back right after navigating restores the history, and so the
   * current location; going back at the root changes nothing; the stack is
   * never emptied.
   */
  lemma BackUndoesPush(history: seq<string>, to: string)
    requires |history| >= 1
    ensures Back(Push(history, to)) == history
    ensures Current(Back(Push(history, to))) == Current(history)
    ensures to != "" ==> Current(Push(history, to)) == to
    ensures |Back(history)| >= 1 && (|history| == 1 ==> Back(history) == history)
  {
    assert (history + [to])[..|history|] == history;
  }

  /** The router state: the history of visited locations, never empty. */
  class MemoryRouter {
    var history: seq<string>

    ghost predicate Valid()
      reads this
    {
      |history| >= 1
    }

    /** The history starts as the single root location. */
    constructor ()
      ensures Valid() && history == ["/"]
    {
      history := ["/"];
    }

    function CurrentLocation(): string
      reads this
      requires Valid()
    {
      Current(history)
    }

    /** `path` of the router context. */
    function Path(): string
      reads this
      requires Valid()
    {
      SplitLocation(CurrentLocation()).0
    }

    /** `search` of the router context. */
    function Search(): string
      reads this
      requires Valid()
    {
      SplitLocation(CurrentLocation()).1
    }

    /** `useRoute(pattern)`: whether the current path matches, and the parameters when it does. */
    function UseRoute(pattern: string): (r: (bool, Option<Params>))
      reads this
      requires Valid()
      ensures r.0 <==> r.1.Some?
      ensures r.1 == Match(pattern, Path())
    {
      var m := Match(pattern, Path());
      if m.Some? then (true, m) else (false, None)
    }

    method Navigate(to: string)
      requires Valid()
      modifies this
      ensures Valid() && history == Push(old(history), to)
    {
      history := history + [to];
    }

    method GoBack()
      requires Valid()
      modifies this
      ensures Valid() && history == Back(old(history))
    {
      if |history| > 1 {
        history := history[..|history| - 1];
      }
    }

    /** A click on a `Link`: navigates to its target, if it has one. */
    method FollowLink(to: Option<string>, href: Option<string>)
      requires Valid()
      modifies this
      ensures Valid()
      ensures history == match LinkTarget(to, href) case Some(t) => Push(old(history), t) case None => old(history)
    {
      var target := LinkTarget(to, href);
      if target.Some? {
        Navigate(target.value);
      }
    }
  }

  // ---------------------------------------------------------------------
  // Switch and Link

  /** A `Route` child of a `Switch`: its `path` prop, if any, and the component it renders. */
  datatype Route<C> = Route(path: Option<string>, component: C)

  /** What a `Switch` renders: a component with the parameters captured for it. */
  datatype Rendered<C> = Rendered(component: C, params: Params)

  /** A child is chosen for a path when its `path` is truthy and matches. */
  predicate Selects<C>(child: Route<C>, path: string)
  {
    child.path.Some? && child.path.value != "" && Match(child.path.value, path).Some?
  }

  /** `Switch`: the first child that selects the path, rendered with its parameters. */
  function Dispatch<C>(children: seq<Route<C>>, path: string): Option<Rendered<C>>
  {
    if children == [] then None
    else if Selects(children[0], path) then
      Some(Rendered(children[0].component, Match(children[0].path.value, path).value))
    else Dispatch(children[1..], path)
  }

  /**
   * `Switch` renders nothing exactly when no child selects the path, and
   * otherwise the component of the first child that does, with its captures.
   */
  lemma DispatchFirstMatch<C>(children: seq<Route<C>>, path: string)
    ensures Dispatch(children, path).None? <==> forall i :: 0 <= i < |children| ==> !Selects(children[i], path)
    ensures Dispatch(children, path).Some? ==>
      exists i :: 0 <= i < |children| && Selects(children[i], path) &&
        (forall j :: 0 <= j < i ==> !Selects(children[j], path)) &&
        Dispatch(children, path).value == Rendered(children[i].component, Match(children[i].path.value, path).value)
  {
    DispatchNoneIff(children, path);
    DispatchFirst(children, path);
  }

  /** `Switch` renders nothing exactly when no child selects the path. */
  lemma {:induction false} DispatchNoneIff<C>(children: seq<Route<C>>, path: string)
    ensures Dispatch(children, path).None? <==> forall i :: 0 <= i < |children| ==> !Selects(children[i], path)
  {
    if children != [] && !Selects(children[0], path) {
      var rest := children[1..];
      DispatchNoneIff(rest, path);
      assert Dispatch(children, path) == Dispatch(rest, path);
      if Dispatch(rest, path).None? {
        forall i | 0 <= i < |children|
          ensures !Selects(children[i], path)
        {
          if i > 0 {
            assert children[i] == rest[i - 1];
          }
        }
      } else {
        var i :| 0 <= i < |rest| && Selects(rest[i], path);
        assert children[i + 1] == rest[i];
      }
    }
  }

  /** What `Switch` renders comes from a child that selects the path, after children that do not. */
  lemma {:induction false} DispatchFirst<C>(children: seq<Route<C>>, path: string)
    ensures Dispatch(children, path).Some? ==>
      exists i :: 0 <= i < |children| && Selects(children[i], path) &&
        (forall j :: 0 <= j < i ==> !Selects(children[j], path)) &&
        Dispatch(children, path).value == Rendered(children[i].component, Match(children[i].path.value, path).value)
  {
    if children != [] && !Selects(children[0], path) {
      var rest := children[1..];
      DispatchFirst(rest, path);
      assert Dispatch(children, path) == Dispatch(rest, path);
      if Dispatch(rest, path).Some? {
        var i :| 0 <= i < |rest| && Selects(rest[i], path) &&
          (forall j :: 0 <= j < i ==> !Selects(rest[j], path)) &&
          Dispatch(rest, path).value == Rendered(rest[i].component, Match(rest[i].path.value, path).value);
        assert children[i + 1] == rest[i];
        forall j | 0 <= j < i + 1
          ensures !Selects(children[j], path)
        {
          if j > 0 {
            assert children[j] == rest[j - 1];
          }
        }
        assert Dispatch(children, path).value == Rendered(children[i + 1].component, Match(children[i + 1].path.value, path).value);
      }
    } else if children != [] {
      assert Selects(children[0], path);
    }
  }

  /** The loop of `Switch`, written as the source writes it. */
  method Switch<C>(children: seq<Route<C>>, path: string) returns (r: Option<Rendered<C>>)
    ensures r == Dispatch(children, path)
  {
    for i := 0 to |children|
      invariant Dispatch(children[i..], path) == Dispatch(children, path)
    {
      assert children[i..][1..] == children[i + 1..];
      var child := children[i];
      if child.path.Some? && child.path.value != "" {
        var m := MatchPath(child.path.value, path);
        if m.Some? {
          return Some(Rendered(child.component, m.value));
        }
      }
    }
    return None;
  }

  /** `to || href`, and no target when that is falsy. */
  function LinkTarget(to: Option<string>, href: Option<string>): (r: Option<string>)
    ensures r.Some? <==> (to.Some? && to.value != "") || (href.Some? && href.value != "")
    ensures r.Some? ==> r.value != "" && (r == to || r == href)
    ensures to.Some? && to.value != "" ==> r == to
  {
    var target := if to.Some? && to.value != "" then to else href;
    if target.Some? && target.value != "" then target else None
  }
}
