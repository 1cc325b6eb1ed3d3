/**
 * The JavaScript string built-ins the application relies on, restricted to
 * ASCII text: `split`, `join`, `indexOf`, `includes`, `startsWith` (the
 * sequence prefix `<=`), `toLowerCase`, `toUpperCase`, `trim` and the
 * first-occurrence form of `replace`.
 */
module Strings {

  /** `s.indexOf(c)` for a character that occurs in `s`: its first position. */
  function IndexOf(s: string, c: char): (i: nat)
    requires c in s
    ensures i < |s| && s[i] == c && c !in s[..i]
  {
    if s[0] == c then 0
    else
      assert s == [s[0]] + s[1..];
      var j := IndexOf(s[1..], c);
      assert s[..j + 1] == [s[0]] + s[1..][..j];
      j + 1
  }

  /** `s.split(sep)`: the pieces between separators, `[""]` for the empty string. */
  function Split(s: string, sep: char): (parts: seq<string>)
    ensures |parts| >= 1
    ensures forall k :: 0 <= k < |parts| ==> sep !in parts[k]
    decreases |s|
  {
    if sep in s then
      var i := IndexOf(s, sep);
      [s[..i]] + Split(s[i + 1..], sep)
    else
      [s]
  }

  /** `parts.join(sep)` for a one-character separator. */
  function Join(parts: seq<string>, sep: char): string
  {
    if |parts| == 0 then ""
    else if |parts| == 1 then parts[0]
    else parts[0] + [sep] + Join(parts[1..], sep)
  }

  /** Joining the pieces of a split with the same separator gives the text back. */
  lemma {:induction false} JoinSplit(s: string, sep: char)
    ensures Join(Split(s, sep), sep) == s
    decreases |s|
  {
    if sep in s {
      var i := IndexOf(s, sep);
      var rest := s[i + 1..];
      JoinCons(s[..i], Split(rest, sep), sep);
      JoinSplit(rest, sep);
      assert s == s[..i] + [sep] + rest;
    }
  }

  /** Joining a piece in front of at least one other puts a separator after it. */
  lemma JoinCons(w: string, parts: seq<string>, sep: char)
    requires |parts| >= 1
    ensures Join([w] + parts, sep) == w + [sep] + Join(parts, sep)
  {
    assert ([w] + parts)[0] == w && ([w] + parts)[1..] == parts;
  }

  /** Concatenation regroups to the right. */
  lemma RegroupThree<T>(a: seq<T>, b: seq<T>, c: seq<T>)
    ensures a + b + c == a + (b + c)
  {
  }

  /** Concatenation of four regroups to the right. */
  lemma RegroupFour<T>(a: seq<T>, b: seq<T>, c: seq<T>, d: seq<T>)
    ensures a + b + c + d == a + (b + c + d)
  {
  }

  /** Splitting at the first separator peels off the text before it. */
  lemma SplitAtFirst(w: string, rest: string, sep: char)
    requires sep !in w
    ensures Split(w + [sep] + rest, sep) == [w] + Split(rest, sep)
  {
    var s := w + [sep] + rest;
    assert s[..|w|] == w;
    assert s[|w|] == sep;
    var i := IndexOf(s, sep);
    assert i == |w|;
    assert s[i + 1..] == rest;
  }

  /** Splitting a join of separator-free pieces gives the pieces back. */
  lemma {:induction false} SplitJoin(parts: seq<string>, sep: char)
    requires |parts| >= 1
    requires forall k :: 0 <= k < |parts| ==> sep !in parts[k]
    ensures Split(Join(parts, sep), sep) == parts
  {
    if |parts| > 1 {
      SplitAtFirst(parts[0], Join(parts[1..], sep), sep);
      SplitJoin(parts[1..], sep);
    }
  }

  /** `parts.filter(Boolean)` on strings: drops the empty ones. */
  function NonEmpty(parts: seq<string>): (r: seq<string>)
    ensures |r| <= |parts|
    ensures forall k :: 0 <= k < |r| ==> r[k] != "" && r[k] in parts
  {
    if parts == [] then []
    else (if parts[0] == "" then [] else [parts[0]]) + NonEmpty(parts[1..])
  }

  /** Filtering distributes over concatenation. */
  lemma {:induction false} NonEmptyAppend(a: seq<string>, b: seq<string>)
    ensures NonEmpty(a + b) == NonEmpty(a) + NonEmpty(b)
  {
    if a != [] {
      var h := if a[0] == "" then [] else [a[0]];
      assert (a + b)[0] == a[0];
      assert (a + b)[1..] == a[1..] + b;
      NonEmptyAppend(a[1..], b);
      RegroupThree(h, NonEmpty(a[1..]), NonEmpty(b));
    } else {
      assert a + b == b;
    }
  }

  /** ASCII `toLowerCase` of one character. */
  function LowerChar(c: char): char
  {
    if 'A' <= c <= 'Z' then (c as int + 32) as char else c
  }

  /** ASCII `toUpperCase` of one character. */
  function UpperChar(c: char): char
  {
    if 'a' <= c <= 'z' then (c as int - 32) as char else c
  }

  /** ASCII `toLowerCase`. */
  function Lower(s: string): string
  {
    seq(|s|, i requires 0 <= i < |s| => LowerChar(s[i]))
  }

  /** `s.includes(t)`: `t` occurs in `s` at some position. */
  function Contains(s: string, t: string): bool
  {
    t <= s || (s != [] && Contains(s[1..], t))
  }

  /** `t` occurs in `s` starting at position `i`. */
  ghost predicate OccursAt(s: string, t: string, i: int)
  {
    0 <= i <= |s| - |t| && s[i..i + |t|] == t
  }

  /** A prefix is an occurrence at position 0. */
  lemma PrefixOccurs(s: string, t: string)
    ensures t <= s <==> OccursAt(s, t, 0)
  {
    if |t| <= |s| {
      assert s[0..|t|] == s[..|t|];
    }
  }

  /** An occurrence in the tail is an occurrence one position later in the whole. */
  lemma ShiftOccurs(s: string, t: string, i: int)
    requires s != [] && i >= 0
    ensures OccursAt(s[1..], t, i) <==> OccursAt(s, t, i + 1)
  {
    if i + 1 <= |s| - |t| {
      assert s[1..][i..i + |t|] == s[i + 1..i + 1 + |t|];
    }
  }

  /** `Contains` holds exactly when `t` is a slice of `s`. */
  lemma {:induction false} ContainsIffOccurs(s: string, t: string)
    ensures Contains(s, t) <==> exists i :: OccursAt(s, t, i)
  {
    PrefixOccurs(s, t);
    if t <= s {
    } else if s != [] {
      ContainsIffOccurs(s[1..], t);
      if exists i :: OccursAt(s, t, i) {
        var i :| OccursAt(s, t, i);
        ShiftOccurs(s, t, i - 1);
      }
      if Contains(s[1..], t) {
        var i :| OccursAt(s[1..], t, i);
        ShiftOccurs(s, t, i);
      }
    }
  }

  /** The empty string occurs in every string. */
  lemma ContainsEmpty(s: string)
    ensures Contains(s, "")
  {
  }

  /** The ASCII white space that JavaScript's `trim` removes: tab through carriage return, and space. */
  predicate IsSpace(c: char)
  {
    c == ' ' || '\t' <= c <= '\r'
  }

  /** `s.trimStart()`: a suffix of `s` that is empty or starts with a non-space. */
  function TrimStart(s: string): (r: string)
    ensures |r| <= |s| && r == s[|s| - |r|..]
    ensures r == "" || !IsSpace(r[0])
  {
    if s != [] && IsSpace(s[0]) then TrimStart(s[1..]) else s
  }

  /** `s.trimEnd()`. */
  function TrimEnd(s: string): string
  {
    if s != [] && IsSpace(s[|s| - 1]) then TrimEnd(s[..|s| - 1]) else s
  }

  /** `s.trim()`. */
  function Trim(s: string): string
  {
    TrimEnd(TrimStart(s))
  }

  lemma {:induction false} TrimStartEmptyIff(s: string)
    ensures TrimStart(s) == "" <==> forall i :: 0 <= i < |s| ==> IsSpace(s[i])
  {
    if s != [] && IsSpace(s[0]) {
      TrimStartEmptyIff(s[1..]);
      assert forall i :: 1 <= i < |s| ==> s[i] == s[1..][i - 1];
    }
  }

  lemma {:induction false} TrimEndEmptyIff(s: string)
    ensures TrimEnd(s) == "" <==> forall i :: 0 <= i < |s| ==> IsSpace(s[i])
  {
    if s != [] && IsSpace(s[|s| - 1]) {
      TrimEndEmptyIff(s[..|s| - 1]);
    }
  }

  /** A string trims to nothing exactly when it is made of white space only. */
  lemma TrimEmptyIff(s: string)
    ensures Trim(s) == "" <==> forall i :: 0 <= i < |s| ==> IsSpace(s[i])
  {
    TrimStartEmptyIff(s);
    TrimEndEmptyIff(TrimStart(s));
  }

  /** `s.replace(pat, rep)` with a string pattern: only the first occurrence is replaced. */
  function ReplaceFirst(s: string, pat: string, rep: string): string
  {
    if pat <= s then rep + s[|pat|..]
    else if s == [] then []
    else [s[0]] + ReplaceFirst(s[1..], pat, rep)
  }

  /** `pat` occurs in `s` at position `i` and at no earlier position. */
  ghost predicate FirstOccurrence(s: string, pat: string, i: int)
  {
    OccursAt(s, pat, i) && forall j :: 0 <= j < i ==> !OccursAt(s, pat, j)
  }

  /** Without an occurrence of the pattern, replacement changes nothing. */
  lemma {:induction false} ReplaceFirstAbsent(s: string, pat: string, rep: string)
    requires !Contains(s, pat)
    ensures ReplaceFirst(s, pat, rep) == s
  {
    if s != [] {
      ReplaceFirstAbsent(s[1..], pat, rep);
    }
  }

  /** A leftmost occurrence past the start is the leftmost occurrence in the tail. */
  lemma FirstOccurrenceTail(s: string, pat: string, i: int)
    requires FirstOccurrence(s, pat, i) && i > 0
    ensures s != [] && !(pat <= s) && FirstOccurrence(s[1..], pat, i - 1)
  {
    PrefixOccurs(s, pat);
    ShiftOccurs(s, pat, i - 1);
    forall j | 0 <= j < i - 1
      ensures !OccursAt(s[1..], pat, j)
    {
      ShiftOccurs(s, pat, j);
    }
  }

  /** Replacement splices `rep` in place of the leftmost occurrence. */
  lemma {:induction false} ReplaceFirstAt(s: string, pat: string, rep: string, i: int)
    requires FirstOccurrence(s, pat, i)
    ensures ReplaceFirst(s, pat, rep) == s[..i] + rep + s[i + |pat|..]
  {
    if i > 0 {
      FirstOccurrenceTail(s, pat, i);
      ReplaceFirstAt(s[1..], pat, rep, i - 1);
      var before, after := s[1..][..i - 1], s[1..][i - 1 + |pat|..];
      assert s[..i] == [s[0]] + before;
      assert after == s[i + |pat|..];
      RegroupFour([s[0]], before, rep, after);
    } else {
      PrefixOccurs(s, pat);
      assert s[..i] + rep == rep;
    }
  }

  /** A pattern that occurs has a leftmost occurrence. */
  lemma {:induction false} FirstOccurrenceExists(s: string, pat: string)
    requires Contains(s, pat)
    ensures exists i :: FirstOccurrence(s, pat, i)
  {
    PrefixOccurs(s, pat);
    if pat <= s {
      assert FirstOccurrence(s, pat, 0);
    } else {
      FirstOccurrenceExists(s[1..], pat);
      var i :| FirstOccurrence(s[1..], pat, i);
      ShiftOccurs(s, pat, i);
      forall j | 0 <= j < i + 1
        ensures !OccursAt(s, pat, j)
      {
        if j > 0 {
          ShiftOccurs(s, pat, j - 1);
        }
      }
      assert FirstOccurrence(s, pat, i + 1);
    }
  }
}
