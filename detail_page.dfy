/**
 * The detail page of one title: the label of the list button, the short
 * label of each episode, the filtered and ordered episode list, the slug
 * the page works with, and the toast shown after a list change.
 */
module DetailPage {
  import opened Wrappers
  import opened Strings
  import opened Types
  import opened Router

  // ---------------------------------------------------------------------
  // The list button's label
  // ---------------------------------------------------------------------

  const AddToListLabel := "Add to List"

  /** A regular-expression word character: an ASCII letter or digit, or `_`. */
  predicate IsWordChar(c: char)
  {
    'a' <= c <= 'z' || 'A' <= c <= 'Z' || '0' <= c <= '9' || c == '_'
  }

  /** `s.replace(/_/g, ' ')`. */
  function Unscore(s: string): (r: string)
    ensures |r| == |s|
  {
    seq(|s|, i requires 0 <= i < |s| => if s[i] == '_' then ' ' else s[i])
  }

  /** `s.replace(/\b\w/g, l => l.toUpperCase())`: every word character that starts a word is upper-cased. */
  function CapitalizeWords(s: string): (r: string)
    ensures |r| == |s|
  {
    seq(|s|, i requires 0 <= i < |s| =>
      if IsWordChar(s[i]) && (i == 0 || !IsWordChar(s[i - 1])) then UpperChar(s[i]) else s[i])
  }

  /** `formatStatusLabel`: the button text for the saved category, or for none. */
  function FormatStatusLabel(status: Option<ListStatus>): (r: string)
    ensures status.None? ==> r == AddToListLabel
    ensures status.Some? ==> |r| == |StatusKey(status.value)|
  {
    if status.None? then AddToListLabel else CapitalizeWords(Unscore(StatusKey(status.value)))
  }

  /** A category key: lower-case ASCII words joined by `_`. */
  predicate IsKeyText(key: string)
  {
    forall i :: 0 <= i < |key| ==> 'a' <= key[i] <= 'z' || key[i] == '_'
  }

  lemma StatusKeyText(s: ListStatus)
    ensures IsKeyText(StatusKey(s)) && StatusKey(s) != ""
  {
  }

  /**
   * A category's label is its key with spaces for underscores and each
   * word's first letter upper-cased; lower-casing it gives the spaced key
   * back.
   */
  lemma StatusLabelSpec(s: ListStatus)
    ensures var key := StatusKey(s); var shown := FormatStatusLabel(Some(s));
      |shown| == |key|
      && (forall i :: 0 <= i < |key| ==> (shown[i] == ' ' <==> key[i] == '_'))
      && (forall i :: 0 <= i < |key| && key[i] != '_' ==>
            shown[i] == if i == 0 || key[i - 1] == '_' then UpperChar(key[i]) else key[i])
      && Lower(shown) == Unscore(key)
  {
    StatusKeyText(s);
    KeyLabelShape(StatusKey(s));
    KeyLabelLowers(StatusKey(s));
  }

  /** The label of a key: spaces for underscores, and each word's first letter upper-cased. */
  lemma KeyLabelShape(key: string)
    requires IsKeyText(key)
    ensures var shown := CapitalizeWords(Unscore(key));
      |shown| == |key|
      && (forall i :: 0 <= i < |key| ==> (shown[i] == ' ' <==> key[i] == '_'))
      && (forall i :: 0 <= i < |key| && key[i] != '_' ==>
            shown[i] == if i == 0 || key[i - 1] == '_' then UpperChar(key[i]) else key[i])
  {
    var shown := CapitalizeWords(Unscore(key));
    forall i | 0 <= i < |key|
      ensures shown[i] == ' ' <==> key[i] == '_'
    {
      assert 'a' <= key[i] <= 'z' || key[i] == '_';
    }
  }

  /** Lower-casing the label of a key gives the key with spaces for underscores. */
  lemma KeyLabelLowers(key: string)
    requires IsKeyText(key)
    ensures Lower(CapitalizeWords(Unscore(key))) == Unscore(key)
  {
    var shown := CapitalizeWords(Unscore(key));
    forall i | 0 <= i < |key|
      ensures Lower(shown)[i] == Unscore(key)[i]
    {
      assert 'a' <= key[i] <= 'z' || key[i] == '_';
    }
  }

  /** The button text of each category. */
  function DisplayName(s: ListStatus): string
  {
    match s
    case PlanToWatch => "Plan To Watch"
    case Watching => "Watching"
    case Completed => "Completed"
    case OnHold => "On Hold"
    case Dropped => "Dropped"
  }

  /** Formatting a category's key yields its display name. */
  lemma StatusLabelText(s: ListStatus)
    ensures FormatStatusLabel(Some(s)) == DisplayName(s)
  {
    match s
    case PlanToWatch => PlanToWatchLabel();
    case Watching => WatchingLabel();
    case Completed => CompletedLabel();
    case OnHold => OnHoldLabel();
    case Dropped => DroppedLabel();
  }

  lemma PlanToWatchLabel()
    ensures FormatStatusLabel(Some(PlanToWatch)) == DisplayName(PlanToWatch)
  {
    PlanToWatchSpaced();
    PlanToWatchCapitalized();
  }

  lemma PlanToWatchSpaced()
    ensures Unscore(StatusKey(PlanToWatch)) == "plan to watch"
  {
  }

  lemma PlanToWatchCapitalized()
    ensures CapitalizeWords("plan to watch") == "Plan To Watch"
  {
    var c := CapitalizeWords("plan to watch");
    forall i | 0 <= i < 13 ensures c[i] == "Plan To Watch"[i] {}
  }

  lemma WatchingLabel()
    ensures FormatStatusLabel(Some(Watching)) == DisplayName(Watching)
  {
    var c := FormatStatusLabel(Some(Watching));
    assert Unscore(StatusKey(Watching)) == "watching";
    forall i | 0 <= i < 8 ensures c[i] == "Watching"[i] {}
  }

  lemma CompletedLabel()
    ensures FormatStatusLabel(Some(Completed)) == DisplayName(Completed)
  {
    var c := FormatStatusLabel(Some(Completed));
    assert Unscore(StatusKey(Completed)) == "completed";
    forall i | 0 <= i < 9 ensures c[i] == "Completed"[i] {}
  }

  lemma OnHoldLabel()
    ensures FormatStatusLabel(Some(OnHold)) == DisplayName(OnHold)
  {
    var c := FormatStatusLabel(Some(OnHold));
    assert Unscore(StatusKey(OnHold)) == "on hold";
    forall i | 0 <= i < 7 ensures c[i] == "On Hold"[i] {}
  }

  lemma DroppedLabel()
    ensures FormatStatusLabel(Some(Dropped)) == DisplayName(Dropped)
  {
    var c := FormatStatusLabel(Some(Dropped));
    assert Unscore(StatusKey(Dropped)) == "dropped";
    forall i | 0 <= i < 7 ensures c[i] == "Dropped"[i] {}
  }

  /** The label never reads `Add to List` once a category is saved, and tells the categories apart. */
  lemma StatusLabelDistinct(a: Option<ListStatus>, b: Option<ListStatus>)
    ensures FormatStatusLabel(a) == FormatStatusLabel(b) <==> a == b
  {
    if a.Some? {
      StatusLabelText(a.value);
    }
    if b.Some? {
      StatusLabelText(b.value);
    }
  }

  // ---------------------------------------------------------------------
  // The episode label
  // ---------------------------------------------------------------------

  predicate IsDigit(c: char)
  {
    '0' <= c <= '9'
  }

  /** `[.-]`, the separator inside a number. */
  predicate IsNumberSep(c: char)
  {
    c == '.' || c == '-'
  }

  /** `[\s.-]`, what may stand between a marker and its number. */
  predicate IsMarkerSep(c: char)
  {
    IsSpace(c) || c == '.' || c == '-'
  }

  predicate AllDigits(t: string)
  {
    forall k :: 0 <= k < |t| ==> IsDigit(t[k])
  }

  /** Text that `\d+(?:[.-]\d+)?` matches in full: digits, optionally one separator and more digits. */
  predicate IsNumberToken(t: string)
  {
    t != "" && IsDigit(t[0]) && IsDigit(t[|t| - 1])
    && forall k :: 0 <= k < |t| ==> IsDigit(t[k]) || (IsNumberSep(t[k]) && forall j :: 0 <= j < |t| && j != k ==> IsDigit(t[j]))
  }

  /** Where the run of digits starting at `i` ends. */
  function DigitsEnd(s: string, i: nat): (e: nat)
    requires i <= |s|
    ensures i <= e <= |s| && AllDigits(s[i..e])
    ensures e == |s| || !IsDigit(s[e])
    decreases |s| - i
  {
    if i < |s| && IsDigit(s[i]) then DigitsEnd(s, i + 1) else i
  }

  /** Where the run of `[\s.-]` starting at `i` ends. */
  function SepsEnd(s: string, i: nat): (e: nat)
    requires i <= |s|
    ensures i <= e <= |s| && (e == |s| || !IsMarkerSep(s[e]))
    decreases |s| - i
  {
    if i < |s| && IsMarkerSep(s[i]) then SepsEnd(s, i + 1) else i
  }

  /** Where the greedy match of `\d+(?:[.-]\d+)?` starting at the digit `s[i]` ends. */
  function NumberEnd(s: string, i: nat): (e: nat)
    requires i < |s| && IsDigit(s[i])
    ensures i < e <= |s| && IsNumberToken(s[i..e])
    ensures e == |s| || !IsDigit(s[e])
  {
    var d := DigitsEnd(s, i);
    if d + 1 < |s| && IsNumberSep(s[d]) && IsDigit(s[d + 1]) then
      var e := DigitsEnd(s, d + 1);
      assert AllDigits(s[d + 1..e]);
      assert forall k :: i <= k < e && k != d ==> IsDigit(s[k]) by {
        forall k | i <= k < e && k != d
          ensures IsDigit(s[k])
        {
          if k < d {
            assert s[i..d][k - i] == s[k];
          } else {
            assert s[d + 1..e][k - d - 1] == s[k];
          }
        }
      }
      e
    else
      assert forall k :: i <= k < d ==> s[i..d][k - i] == s[k];
      d
  }

  /** The number captured after a marker ending at `j`: separators, then a number that must start right there. */
  function NumberAfter(s: string, j: nat): (r: Option<(nat, nat)>)
    requires j <= |s|
    ensures r.Some? ==> j <= r.value.0 < r.value.1 <= |s| && IsNumberToken(s[r.value.0..r.value.1])
  {
    var k := SepsEnd(s, j);
    if k < |s| && IsDigit(s[k]) then Some((k, NumberEnd(s, k))) else None
  }

  /** The markers of the episode pattern, in the order the alternation tries them. */
  const Markers: seq<string> := ["episode", "ova", "special", "sp"]

  /** The first of `markers` that matches case-insensitively at `p` and is followed by a number; the number's bounds. */
  function MarkerMatch(s: string, p: nat, markers: seq<string>): (r: Option<(nat, nat)>)
    requires p <= |s|
    ensures r.Some? ==> p <= r.value.0 < r.value.1 <= |s| && IsNumberToken(s[r.value.0..r.value.1])
  {
    if markers == [] then None
    else
      var m := markers[0];
      if m <= Lower(s)[p..] && NumberAfter(s, p + |m|).Some? then NumberAfter(s, p + |m|)
      else MarkerMatch(s, p, markers[1..])
  }

  /** The leftmost match of the marker pattern at or after `p`. */
  function FirstMarkerNumber(s: string, p: nat, markers: seq<string>): (r: Option<(nat, nat)>)
    requires p <= |s|
    ensures r.Some? ==> p <= r.value.0 < r.value.1 <= |s| && IsNumberToken(s[r.value.0..r.value.1])
    decreases |s| - p
  {
    var here := MarkerMatch(s, p, markers);
    if here.Some? then here
    else if p == |s| then None
    else FirstMarkerNumber(s, p + 1, markers)
  }

  /** No position in `lo..hi` starts a marker match. */
  ghost predicate NoMarkerMatch(s: string, lo: nat, hi: nat, markers: seq<string>)
    requires hi <= |s| + 1
  {
    forall q :: lo <= q < hi ==> MarkerMatch(s, q, markers).None?
  }

  /** The search finds the match at the leftmost position where one exists, and nothing when there is none. */
  lemma FirstMarkerNumberSpec(s: string, p: nat, markers: seq<string>)
    requires p <= |s|
    ensures FirstMarkerNumber(s, p, markers).None? <==> NoMarkerMatch(s, p, |s| + 1, markers)
    ensures FirstMarkerNumber(s, p, markers).Some? ==>
      exists q :: p <= q <= FirstMarkerNumber(s, p, markers).value.0
        && MarkerMatch(s, q, markers) == FirstMarkerNumber(s, p, markers)
        && NoMarkerMatch(s, p, q, markers)
  {
    FirstMarkerNoneIff(s, p, markers);
    FirstMarkerLeftmost(s, p, markers);
  }

  /** The search finds nothing exactly when no position from `p` on starts a match. */
  lemma {:induction false} FirstMarkerNoneIff(s: string, p: nat, markers: seq<string>)
    requires p <= |s|
    ensures FirstMarkerNumber(s, p, markers).None? <==> NoMarkerMatch(s, p, |s| + 1, markers)
    decreases |s| - p
  {
    if MarkerMatch(s, p, markers).None? && p < |s| {
      FirstMarkerNoneIff(s, p + 1, markers);
      if NoMarkerMatch(s, p + 1, |s| + 1, markers) {
        forall q | p <= q < |s| + 1
          ensures MarkerMatch(s, q, markers).None?
        {
          if q > p {
            assert p + 1 <= q;
          }
        }
      }
    }
  }

  /** A match the search finds starts at a position before which no position starts one. */
  lemma {:induction false} FirstMarkerLeftmost(s: string, p: nat, markers: seq<string>)
    requires p <= |s|
    ensures FirstMarkerNumber(s, p, markers).Some? ==>
      exists q :: p <= q <= FirstMarkerNumber(s, p, markers).value.0
        && MarkerMatch(s, q, markers) == FirstMarkerNumber(s, p, markers)
        && NoMarkerMatch(s, p, q, markers)
    decreases |s| - p
  {
    if MarkerMatch(s, p, markers).Some? {
      FirstMarkerHere(s, p, markers);
    } else if p < |s| {
      FirstMarkerStep(s, p, markers);
      FirstMarkerLeftmost(s, p + 1, markers);
      var rest := FirstMarkerNumber(s, p + 1, markers);
      if rest.Some? {
        var q :| p + 1 <= q <= rest.value.0 && MarkerMatch(s, q, markers) == rest && NoMarkerMatch(s, p + 1, q, markers);
        NoMarkerMatchExtend(s, p, q, markers);
      }
    }
  }

  /** A match at `p` is what the search from `p` finds. */
  lemma FirstMarkerHere(s: string, p: nat, markers: seq<string>)
    requires p <= |s| && MarkerMatch(s, p, markers).Some?
    ensures FirstMarkerNumber(s, p, markers) == MarkerMatch(s, p, markers)
    ensures p <= FirstMarkerNumber(s, p, markers).value.0 && NoMarkerMatch(s, p, p, markers)
  {
  }

  /** Without a match at `p`, the search moves on to `p + 1`. */
  lemma FirstMarkerStep(s: string, p: nat, markers: seq<string>)
    requires p < |s| && MarkerMatch(s, p, markers).None?
    ensures FirstMarkerNumber(s, p, markers) == FirstMarkerNumber(s, p + 1, markers)
  {
  }

  /** A position without a match extends a match-free range down by one. */
  lemma NoMarkerMatchExtend(s: string, p: nat, q: nat, markers: seq<string>)
    requires p < q <= |s| + 1 && MarkerMatch(s, p, markers).None? && NoMarkerMatch(s, p + 1, q, markers)
    ensures NoMarkerMatch(s, p, q, markers)
  {
    forall q' | p <= q' < q
      ensures MarkerMatch(s, q', markers).None?
    {
      if q' > p {
        assert p + 1 <= q';
      }
    }
  }

  /** The matches of the global `\d+(?:[.-]\d+)?` scan from `i`, left to right and non-overlapping. */
  function NumbersFrom(s: string, i: nat): (r: seq<(nat, nat)>)
    requires i <= |s|
    ensures forall k :: 0 <= k < |r| ==> i <= r[k].0 < r[k].1 <= |s| && IsNumberToken(s[r[k].0..r[k].1])
    ensures r == [] <==> forall k :: i <= k < |s| ==> !IsDigit(s[k])
    decreases |s| - i
  {
    if i == |s| then []
    else if IsDigit(s[i]) then [(i, NumberEnd(s, i))] + NumbersFrom(s, NumberEnd(s, i))
    else NumbersFrom(s, i + 1)
  }

  /** The tokens come in text order without overlapping. */
  predicate TokensOrdered(r: seq<(nat, nat)>)
  {
    forall k :: 0 <= k < |r| - 1 ==> r[k].1 <= r[k + 1].0
  }

  /** No digit stands at or after `p`. */
  predicate NoDigitFrom(s: string, p: nat)
  {
    forall k :: p <= k < |s| ==> !IsDigit(s[k])
  }

  /** The digit at `k` lies inside some token. */
  predicate InSomeToken(r: seq<(nat, nat)>, k: nat)
  {
    exists t :: 0 <= t < |r| && r[t].0 <= k < r[t].1
  }

  /**
   * The scan's tokens come in text order without overlapping, every digit
   * from `i` on lies inside one of them, and no digit follows the last.
   */
  lemma NumbersFromSpec(s: string, i: nat)
    requires i <= |s|
    ensures TokensOrdered(NumbersFrom(s, i))
    ensures NumbersFrom(s, i) != [] ==> NoDigitFrom(s, NumbersFrom(s, i)[|NumbersFrom(s, i)| - 1].1)
    ensures forall k :: i <= k < |s| && IsDigit(s[k]) ==> InSomeToken(NumbersFrom(s, i), k)
  {
    NumbersFromOrdered(s, i);
    NumbersFromLast(s, i);
    NumbersFromCovers(s, i);
  }

  /** Each token ends at or before the next one starts. */
  lemma {:induction false} NumbersFromOrdered(s: string, i: nat)
    requires i <= |s|
    ensures TokensOrdered(NumbersFrom(s, i))
    decreases |s| - i
  {
    if i == |s| {
    } else if IsDigit(s[i]) {
      var e := NumberEnd(s, i);
      var rest := NumbersFrom(s, e);
      NumbersFromOrdered(s, e);
      var r := [(i, e)] + rest;
      assert NumbersFrom(s, i) == r;
      forall k | 0 <= k < |r| - 1
        ensures r[k].1 <= r[k + 1].0
      {
        if k == 0 {
          assert r[1] == rest[0];
        } else {
          assert r[k] == rest[k - 1] && r[k + 1] == rest[k];
        }
      }
    } else {
      assert NumbersFrom(s, i) == NumbersFrom(s, i + 1);
      NumbersFromOrdered(s, i + 1);
    }
  }

  /** No digit stands after the last token. */
  lemma {:induction false} NumbersFromLast(s: string, i: nat)
    requires i <= |s|
    ensures NumbersFrom(s, i) != [] ==> NoDigitFrom(s, NumbersFrom(s, i)[|NumbersFrom(s, i)| - 1].1)
    decreases |s| - i
  {
    if i == |s| {
    } else if IsDigit(s[i]) {
      var e := NumberEnd(s, i);
      var rest := NumbersFrom(s, e);
      NumbersFromLast(s, e);
      var r := [(i, e)] + rest;
      assert NumbersFrom(s, i) == r;
      if rest == [] {
        assert r[|r| - 1] == (i, e);
      } else {
        assert r[|r| - 1] == rest[|rest| - 1];
      }
    } else {
      assert NumbersFrom(s, i) == NumbersFrom(s, i + 1);
      NumbersFromLast(s, i + 1);
    }
  }

  /** Every digit from `i` on lies inside some token. */
  lemma {:induction false} NumbersFromCovers(s: string, i: nat)
    requires i <= |s|
    ensures forall k :: i <= k < |s| && IsDigit(s[k]) ==> InSomeToken(NumbersFrom(s, i), k)
    decreases |s| - i
  {
    var r := NumbersFrom(s, i);
    if i == |s| {
    } else if IsDigit(s[i]) {
      var e := NumberEnd(s, i);
      var rest := NumbersFrom(s, e);
      NumbersFromCovers(s, e);
      assert r == [(i, e)] + rest;
      forall k | i <= k < |s| && IsDigit(s[k])
        ensures InSomeToken(r, k)
      {
        if k < e {
          assert r[0].0 <= k < r[0].1;
        } else {
          assert InSomeToken(rest, k);
          var t :| 0 <= t < |rest| && rest[t].0 <= k < rest[t].1;
          assert r[t + 1] == rest[t];
        }
      }
    } else {
      assert r == NumbersFrom(s, i + 1);
      NumbersFromCovers(s, i + 1);
      forall k | i <= k < |s| && IsDigit(s[k])
        ensures InSomeToken(r, k)
      {
        assert k != i;
      }
    }
  }

  /** `getEpisodeLabel`: the short label shown in an episode's tile. */
  function GetEpisodeLabel(episode: string): (r: string)
    ensures r in {"OVA", "SP", "MOV", "??"}
      || exists a, b :: 0 <= a < b <= |episode| && r == episode[a..b] && IsNumberToken(r)
  {
    var low := Lower(episode);
    var marked := FirstMarkerNumber(episode, 0, Markers);
    if marked.Some? then episode[marked.value.0..marked.value.1]
    else if Contains(low, "ova") then "OVA"
    else if Contains(low, "special") || Contains(low, "sp") then "SP"
    else if Contains(low, "movie") then "MOV"
    else
      var numbers := NumbersFrom(episode, 0);
      if numbers != [] then episode[numbers[|numbers| - 1].0..numbers[|numbers| - 1].1] else "??"
  }

  /** A number after a marker wins: the label is the number of the leftmost marker match. */
  lemma EpisodeLabelMarked(episode: string, q: nat)
    requires q <= |episode| && MarkerMatch(episode, q, Markers).Some?
    requires NoMarkerMatch(episode, 0, q, Markers)
    ensures var m := MarkerMatch(episode, q, Markers).value;
      GetEpisodeLabel(episode) == episode[m.0..m.1]
  {
    FirstMarkerNumberSpec(episode, 0, Markers);
    var r := FirstMarkerNumber(episode, 0, Markers);
    assert r.Some?;
    var q0 :| 0 <= q0 <= r.value.0 && MarkerMatch(episode, q0, Markers) == r && NoMarkerMatch(episode, 0, q0, Markers);
    assert q0 == q;
  }

  /** `Episode 12` is labelled `12`. */
  lemma EpisodeLabelExample()
    ensures GetEpisodeLabel("Episode 12") == "12"
  {
    var e := "Episode 12";
    assert Lower(e)[0..7] == "episode";
    assert SepsEnd(e, 7) == 8;
    assert NumberEnd(e, 8) == 10;
    assert MarkerMatch(e, 0, Markers) == Some((8, 10));
    EpisodeLabelMarked(e, 0);
  }

  /**
   * Without a marked number the fixed labels decide in priority order
   * (`ova`, then `sp`, then `movie`, all case-insensitive), then the last
   * number; `??` only when the text has no digit at all.
   */
  lemma EpisodeLabelFallback(episode: string)
    requires NoMarkerMatch(episode, 0, |episode| + 1, Markers)
    ensures var r := GetEpisodeLabel(episode); var low := Lower(episode);
      (Contains(low, "ova") ==> r == "OVA")
      && (!Contains(low, "ova") && Contains(low, "sp") ==> r == "SP")
      && (!Contains(low, "ova") && !Contains(low, "sp") && Contains(low, "movie") ==> r == "MOV")
      && (!Contains(low, "ova") && !Contains(low, "sp") && !Contains(low, "movie") ==>
            (r == "??" <==> forall k :: 0 <= k < |episode| ==> !IsDigit(episode[k])))
      && (!Contains(low, "ova") && !Contains(low, "sp") && !Contains(low, "movie") && !NoDigitFrom(episode, 0) ==>
            var numbers := NumbersFrom(episode, 0); var last := numbers[|numbers| - 1];
            numbers != [] && r == episode[last.0..last.1] && NoDigitFrom(episode, last.1))
  {
    FirstMarkerNumberSpec(episode, 0, Markers);
    var low := Lower(episode);
    SpecialHasSp(low);
    var r := GetEpisodeLabel(episode);
    if !Contains(low, "ova") && !Contains(low, "sp") && !Contains(low, "movie") {
      var numbers := NumbersFrom(episode, 0);
      if numbers != [] {
        var last := numbers[|numbers| - 1];
        assert r == episode[last.0..last.1];
        assert IsDigit(r[0]);
        NumbersFromLast(episode, 0);
      }
    }
  }

  /** Whatever contains `special` contains `sp`, so the `special` test never decides on its own. */
  lemma {:induction false} SpecialHasSp(s: string)
    ensures Contains(s, "special") ==> Contains(s, "sp")
  {
    if "special" <= s {
      assert "sp" <= s by {
        assert s[..2] == "special"[..2];
      }
    } else if s != [] {
      SpecialHasSp(s[1..]);
    }
  }

  // ---------------------------------------------------------------------
  // The episode list: filter and order
  // ---------------------------------------------------------------------

  datatype SortOrder = Desc | Asc

  /** The sort button: `desc` becomes `asc` and back. */
  function Toggle(o: SortOrder): (r: SortOrder)
    ensures r != o
  {
    if o == Desc then Asc else Desc
  }

  lemma ToggleTwice(o: SortOrder)
    ensures Toggle(Toggle(o)) == o
  {
  }

  /** The episode's title contains the query, both lower-cased. */
  predicate Matches(ep: Episode, query: string)
  {
    Contains(Lower(ep.episode), Lower(query))
  }

  /** `episodes.filter(...)`: the matching episodes in their original order. */
  function FilterEpisodes(episodes: seq<Episode>, query: string): (r: seq<Episode>)
    ensures |r| <= |episodes|
    ensures forall e :: e in r <==> e in episodes && Matches(e, query)
  {
    if episodes == [] then []
    else (if Matches(episodes[0], query) then [episodes[0]] else []) + FilterEpisodes(episodes[1..], query)
  }

  /** Filtering splits over concatenation, so the kept episodes keep their relative order. */
  lemma {:induction false} FilterAppend(a: seq<Episode>, b: seq<Episode>, query: string)
    ensures FilterEpisodes(a + b, query) == FilterEpisodes(a, query) + FilterEpisodes(b, query)
  {
    if a != [] {
      assert (a + b)[0] == a[0] && (a + b)[1..] == a[1..] + b;
      FilterAppend(a[1..], b, query);
    } else {
      assert a + b == b;
    }
  }

  /** When every episode matches, none is dropped. */
  lemma {:induction false} FilterAllMatch(episodes: seq<Episode>, query: string)
    requires forall k :: 0 <= k < |episodes| ==> Matches(episodes[k], query)
    ensures FilterEpisodes(episodes, query) == episodes
  {
    if episodes != [] {
      assert Matches(episodes[0], query);
      FilterAllMatch(episodes[1..], query);
      assert episodes == [episodes[0]] + episodes[1..];
    }
  }

  /** An empty query keeps the whole list. */
  lemma FilterEmptyQuery(episodes: seq<Episode>)
    ensures FilterEpisodes(episodes, "") == episodes
  {
    forall k | 0 <= k < |episodes|
      ensures Matches(episodes[k], "")
    {
      ContainsEmpty(Lower(episodes[k].episode));
    }
    FilterAllMatch(episodes, "");
  }

  /** `[...s].reverse()`. */
  function Reverse<T>(s: seq<T>): (r: seq<T>)
    ensures |r| == |s| && forall i :: 0 <= i < |s| ==> r[i] == s[|s| - 1 - i]
  {
    if s == [] then [] else Reverse(s[1..]) + [s[0]]
  }

  lemma ReverseReverse<T>(s: seq<T>)
    ensures Reverse(Reverse(s)) == s
  {
  }

  /** The list the episode tab shows: the filtered list, reversed for `asc`. */
  function Shown(episodes: seq<Episode>, query: string, order: SortOrder): seq<Episode>
  {
    var filtered := FilterEpisodes(episodes, query);
    if order == Asc then Reverse(filtered) else filtered
  }

  /** Pressing the sort button twice shows the same list; once shows it reversed. */
  lemma ShownToggle(episodes: seq<Episode>, query: string, order: SortOrder)
    ensures Shown(episodes, query, Toggle(order)) == Reverse(Shown(episodes, query, order))
    ensures Shown(episodes, query, Toggle(Toggle(order))) == Shown(episodes, query, order)
  {
    ReverseReverse(FilterEpisodes(episodes, query));
  }

  /** The episode tab's `sortOrder` and `searchQuery` state cells. */
  class EpisodeList {
    const episodes: seq<Episode>
    var sortOrder: SortOrder
    var searchQuery: string

    /** The tab opens newest first with an empty filter, showing every episode as delivered. */
    constructor (episodes: seq<Episode>)
      ensures this.episodes == episodes && sortOrder == Desc && searchQuery == ""
      ensures Displayed() == episodes
    {
      this.episodes := episodes;
      sortOrder := Desc;
      searchQuery := "";
      new;
      FilterEmptyQuery(episodes);
    }

    function Displayed(): seq<Episode>
      reads this
    {
      Shown(episodes, searchQuery, sortOrder)
    }

    method ToggleSort()
      modifies this
      ensures sortOrder == Toggle(old(sortOrder)) && searchQuery == old(searchQuery)
      ensures Displayed() == Reverse(old(Displayed()))
    {
      ShownToggle(episodes, searchQuery, sortOrder);
      sortOrder := Toggle(sortOrder);
    }

    method SetQuery(query: string)
      modifies this
      ensures searchQuery == query && sortOrder == old(sortOrder)
    {
      searchQuery := query;
    }
  }

  // ---------------------------------------------------------------------
  // The slug the page works with
  // ---------------------------------------------------------------------

  const SlugMissingInUrlMessage := "Anime slug is missing in URL."

  /** What `getDetails` does: reject without a route slug, otherwise request that slug's details. */
  datatype DetailsRequest = Rejected(message: string) | RequestDetails(slug: string)

  function GetDetails(routeSlug: Option<string>): (r: DetailsRequest)
    ensures r.Rejected? <==> routeSlug.None? || routeSlug.value == ""
    ensures r.Rejected? ==> r.message == SlugMissingInUrlMessage
    ensures r.RequestDetails? ==> r.slug == routeSlug.value
  {
    if routeSlug.None? || routeSlug.value == "" then Rejected(SlugMissingInUrlMessage) else RequestDetails(routeSlug.value)
  }

  /** `animeData`: the fetched detail, with the route slug filled in when the detail has none. */
  function AnimeData(data: Option<AnimeDetail>, routeSlug: Option<string>): (r: Option<AnimeDetail>)
    ensures r.Some? <==> data.Some?
    ensures r.Some? ==>
      r.value.anime.slug == (if data.value.anime.slug == "" && routeSlug.Some? && routeSlug.value != ""
                             then routeSlug.value else data.value.anime.slug)
      && r.value == data.value.(anime := data.value.anime.(slug := r.value.anime.slug))
  {
    if data.None? then None
    else if data.value.anime.slug == "" && routeSlug.Some? && routeSlug.value != "" then
      Some(data.value.(anime := data.value.anime.(slug := routeSlug.value)))
    else data
  }

  /** Whenever details were requested for a route slug, the page's record has a slug. */
  lemma AnimeDataHasSlug(data: AnimeDetail, routeSlug: Option<string>)
    requires GetDetails(routeSlug).RequestDetails?
    ensures AnimeData(Some(data), routeSlug).Some? && AnimeData(Some(data), routeSlug).value.anime.slug != ""
  {
  }

  // ---------------------------------------------------------------------
  // The toast
  // ---------------------------------------------------------------------

  const RemovedMessage := "Removed from your list."

  /** The toast after a category is chosen: `Added to` when none was saved, `Moved to` otherwise. */
  function StatusChangeMessage(current: Option<ListStatus>, newStatus: ListStatus): (m: string)
    ensures |m| == |FormatStatusLabel(Some(newStatus))| + 12
  {
    (if current.None? then "Added to \"" else "Moved to \"") + FormatStatusLabel(Some(newStatus)) + "\"."
  }

  /** The message names the new category's label and says whether the title was new to the list. */
  lemma StatusChangeMessageSpec(current: Option<ListStatus>, newStatus: ListStatus)
    ensures var m := StatusChangeMessage(current, newStatus); var shown := FormatStatusLabel(Some(newStatus));
      |m| == |shown| + 12 && m[10..|m| - 2] == shown
      && ("Added to \"" <= m <==> current.None?)
      && ("Moved to \"" <= m <==> current.Some?)
  {
    var m := StatusChangeMessage(current, newStatus);
    assert m[0] == if current.None? then 'A' else 'M';
  }

  const ListPagePath := "/my-list"
  const StatusQueryKey := "status="

  /** The toast's action target for a category: the list page filtered to it. */
  function ListLink(status: ListStatus): string
  {
    ListPagePath + "?" + (StatusQueryKey + StatusKey(status))
  }

  lemma ListPathHasNoQuery()
    ensures '?' !in ListPagePath
  {
    forall i | 0 <= i < |ListPagePath|
      ensures ListPagePath[i] != '?'
    {
    }
  }

  lemma StatusQueryHasNoQuery(status: ListStatus)
    ensures '?' !in StatusQueryKey + StatusKey(status)
  {
    StatusKeyText(status);
    var q := StatusQueryKey + StatusKey(status);
    forall i | 0 <= i < |q|
      ensures q[i] != '?'
    {
      if i >= |StatusQueryKey| {
        assert q[i] == StatusKey(status)[i - |StatusQueryKey|];
      }
    }
  }

  /** The action target's path is the list page, and its query is `?status=` and the category's key. */
  lemma ListLinkLocation(status: ListStatus)
    ensures SplitLocation(ListLink(status)) == (ListPagePath, "?" + (StatusQueryKey + StatusKey(status)))
  {
    ListPathHasNoQuery();
    StatusQueryHasNoQuery(status);
    SplitLocationWithQuery(ListPagePath, StatusQueryKey + StatusKey(status), "");
  }

  /** The key at the end of the action target reads back as the category. */
  lemma ListLinkNamesStatus(status: ListStatus)
    ensures ParseStatus(ListLink(status)[|ListPagePath| + 1 + |StatusQueryKey|..]) == Some(status)
  {
    assert ListLink(status)[|ListPagePath| + 1 + |StatusQueryKey|..] == StatusKey(status);
    StatusKeyRoundTrip(status);
  }

  datatype ToastInfo = ToastInfo(message: string, visible: bool, actionTo: Option<string>)

  const HiddenToast := ToastInfo("", false, None)

  datatype Tab = About | Episodes | Recommendations

  /** The page's `toastInfo` and `activeTab` state cells. */
  class DetailView {
    var toast: ToastInfo
    var activeTab: Tab

    constructor ()
      ensures toast == HiddenToast && activeTab == About
    {
      toast := HiddenToast;
      activeTab := About;
    }

    /** `showToast`: a visible message, with a link to the list only when a category is given. */
    method ShowToast(message: string, newStatus: Option<ListStatus>)
      modifies this
      ensures toast.message == message && toast.visible
      ensures toast.actionTo.Some? <==> newStatus.Some?
      ensures newStatus.Some? ==> toast.actionTo.value == ListLink(newStatus.value)
      ensures activeTab == old(activeTab)
    {
      toast := ToastInfo(message, true, if newStatus.Some? then Some(ListLink(newStatus.value)) else None);
    }

    /** `handleStatusChange`, given the category saved before the change. */
    method HandleStatusChange(currentStatus: Option<ListStatus>, newStatus: ListStatus)
      modifies this
      ensures toast == ToastInfo(StatusChangeMessage(currentStatus, newStatus), true, Some(ListLink(newStatus)))
      ensures activeTab == old(activeTab)
    {
      ShowToast(StatusChangeMessage(currentStatus, newStatus), Some(newStatus));
    }

    /** `handleRemove`: a plain toast without a link. */
    method HandleRemove()
      modifies this
      ensures toast == ToastInfo(RemovedMessage, true, None)
      ensures activeTab == old(activeTab)
    {
      ShowToast(RemovedMessage, None);
    }

    /** The timer's reset of the toast. */
    method HideToast()
      modifies this
      ensures toast == HiddenToast && activeTab == old(activeTab)
    {
      toast := HiddenToast;
    }

    method SelectTab(tab: Tab)
      modifies this
      ensures activeTab == tab && toast == old(toast)
    {
      activeTab := tab;
    }
  }
}
