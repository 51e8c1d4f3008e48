/**
 * The two URL patterns the route handlers share: the host check that guards
 * the routes which spawn the extractor, and the video-id extraction with its
 * two regular expressions.
 */
module UrlPatterns {
  import opened Js

  // ---------------------------------------------------------------------
  // Host pattern  ^(https?://)?(www\.)?(youtube\.com|youtu\.be)/.+
  // ---------------------------------------------------------------------

  /** The text the optional `(https?://)?` group can match. */
  predicate IsScheme(s: string)
  {
    s == "" || s == "http://" || s == "https://"
  }

  /** The text the optional `(www\.)?` group can match. */
  predicate IsWww(s: string)
  {
    s == "" || s == "www."
  }

  /** The text `(youtube\.com|youtu\.be)/` can match. */
  predicate IsHostSlash(s: string)
  {
    s == "youtube.com/" || s == "youtu.be/"
  }

  /** What it means for the host pattern to match `u`: the input splits into
      the three groups and the slash, followed by at least one character that
      `.` matches (anything but a line terminator); the pattern is not
      anchored at the end, so whatever follows that character is free. */
  ghost predicate HostPatternMatches(u: string)
  {
    exists a, b, n ::
      0 <= a <= b <= n < |u| && IsScheme(u[..a]) && IsWww(u[a..b]) && IsHostSlash(u[b..n]) && !IsLineTerminator(u[n])
  }

  function StripScheme(u: string): string
  {
    if "https://" <= u then u[8..] else if "http://" <= u then u[7..] else u
  }

  function StripWww(u: string): string
  {
    if "www." <= u then u[4..] else u
  }

  function AfterHost(u: string): Option<string>
  {
    if "youtube.com/" <= u then Some(u[12..])
    else if "youtu.be/" <= u then Some(u[9..])
    else None
  }

  /** `youtubePattern.test(url)`, decided left to right: each optional group
      is taken whenever its text is there. */
  predicate IsYoutubeUrl(u: string)
  {
    match AfterHost(StripWww(StripScheme(u)))
    case None => false
    case Some(rest) => rest != [] && !IsLineTerminator(rest[0])
  }

  lemma StripSchemeAt(u: string, a: nat)
    requires a < |u| && IsScheme(u[..a]) && u[a] != 'h'
    ensures StripScheme(u) == u[a..]
  {
    if a == 0 {
      assert u[0] != 'h';
      assert !("https://" <= u) && !("http://" <= u) by {
        assert "https://"[0] == 'h' && "http://"[0] == 'h';
      }
    } else if a == 7 {
      assert u[..7] == "http://";
      assert u[4] == ':';
      assert !("https://" <= u) by { assert "https://"[4] == 's'; }
    } else {
      assert u[..8] == "https://";
    }
  }

  lemma StripWwwAt(v: string, b: nat)
    requires b < |v| && IsWww(v[..b]) && v[b] == 'y'
    ensures StripWww(v) == v[b..]
  {
    if b == 0 {
      assert !("www." <= v) by { assert "www."[0] == 'w'; }
    } else {
      assert v[..4] == "www.";
    }
  }

  lemma AfterHostAt(w: string, n: nat)
    requires n <= |w| && IsHostSlash(w[..n])
    ensures AfterHost(w) == Some(w[n..])
  {
    if w[..n] == "youtube.com/" {
      assert "youtube.com/" <= w;
    } else {
      assert w[..9] == "youtu.be/";
      assert w[5] == '.';
      assert !("youtube.com/" <= w) by { assert "youtube.com/"[5] == 'b'; }
    }
  }

  /** Taking each optional group greedily decides the pattern exactly: the
      regular expression's backtracking can never find a match that the
      greedy reading misses, nor the other way round. */
  lemma IsYoutubeUrlIff(u: string)
    ensures IsYoutubeUrl(u) <==> HostPatternMatches(u)
  {
    if IsYoutubeUrl(u) {
      GreedyMatchIsMatch(u);
    }
    if HostPatternMatches(u) {
      var a, b, n :| 0 <= a <= b <= n < |u| && IsScheme(u[..a]) && IsWww(u[a..b]) && IsHostSlash(u[b..n]) && !IsLineTerminator(u[n]);
      MatchIsGreedyMatch(u, a, b, n);
    }
  }

  lemma GreedyMatchIsMatch(u: string)
    requires IsYoutubeUrl(u)
    ensures HostPatternMatches(u)
  {
    var a := SchemeGroup(u);
    var b := WwwGroup(u, a);
    assert StripWww(StripScheme(u)) == u[b..];
    var n := HostGroup(u, b);
    assert u[n..][0] == u[n];
    assert IsScheme(u[..a]) && IsWww(u[a..b]) && IsHostSlash(u[b..n]) && !IsLineTerminator(u[n]);
  }

  /** Where the greedy `(https?://)?` leaves off. */
  lemma SchemeGroup(u: string) returns (a: nat)
    ensures a <= |u| && IsScheme(u[..a]) && StripScheme(u) == u[a..]
  {
    a := |u| - |StripScheme(u)|;
    if "https://" <= u {
      assert u[..a] == "https://";
    } else if "http://" <= u {
      assert u[..a] == "http://";
    }
  }

  /** Where the greedy `(www\.)?` leaves off, after the scheme. */
  lemma WwwGroup(u: string, a: nat) returns (b: nat)
    requires a <= |u|
    ensures a <= b <= |u| && IsWww(u[a..b]) && StripWww(u[a..]) == u[b..]
  {
    var s := u[a..];
    b := a + (|s| - |StripWww(s)|);
    if "www." <= s {
      assert u[a..b] == s[..4] == "www.";
    }
  }

  /** Where the host and its slash end, when they are there. */
  lemma HostGroup(u: string, b: nat) returns (n: nat)
    requires b <= |u| && AfterHost(u[b..]).Some? && AfterHost(u[b..]).value != []
    ensures b <= n < |u| && IsHostSlash(u[b..n]) && AfterHost(u[b..]) == Some(u[n..])
  {
    var w := u[b..];
    var rest := AfterHost(w).value;
    n := b + (|w| - |rest|);
    if "youtube.com/" <= w {
      assert u[b..n] == w[..12] == "youtube.com/";
    } else {
      assert u[b..n] == w[..9] == "youtu.be/";
    }
  }

  lemma MatchIsGreedyMatch(u: string, a: nat, b: nat, n: nat)
    requires a <= b <= n < |u| && IsScheme(u[..a]) && IsWww(u[a..b]) && IsHostSlash(u[b..n]) && !IsLineTerminator(u[n])
    ensures IsYoutubeUrl(u)
  {
    GroupsStartAt(u, a, b, n);
    StripSchemeAt(u, a);
    StripWwwSlice(u, a, b);
    AfterHostSlice(u, b, n);
    assert u[n..][0] == u[n];
  }

  lemma GroupsStartAt(u: string, a: nat, b: nat, n: nat)
    requires a <= b <= n < |u| && IsWww(u[a..b]) && IsHostSlash(u[b..n])
    ensures u[a] != 'h' && u[b] == 'y'
  {
    assert u[b] == 'y' by { assert u[b..n][0] == 'y'; }
    if b > a { assert u[a..b][0] == 'w'; }
  }

  lemma StripWwwSlice(u: string, a: nat, b: nat)
    requires a <= b < |u| && IsWww(u[a..b]) && u[b] == 'y'
    ensures StripWww(u[a..]) == u[b..]
  {
    var v := u[a..];
    assert v[..b - a] == u[a..b];
    StripWwwAt(v, b - a);
    assert v[b - a..] == u[b..];
  }

  lemma AfterHostSlice(u: string, b: nat, n: nat)
    requires b <= n <= |u| && IsHostSlash(u[b..n])
    ensures AfterHost(u[b..]) == Some(u[n..])
  {
    var w := u[b..];
    assert w[..n - b] == u[b..n];
    AfterHostAt(w, n - b);
    assert w[n - b..] == u[n..];
  }

  // ---------------------------------------------------------------------
  // extractVideoId
  // ---------------------------------------------------------------------

  /** A character of the capture group `[^&\n?#]`. */
  predicate IsIdChar(c: char)
  {
    c != '&' && c != '\n' && c != '?' && c != '#'
  }

  /** A character of `[a-zA-Z0-9_-]`. */
  predicate IsBareIdChar(c: char)
  {
    ('a' <= c <= 'z') || ('A' <= c <= 'Z') || ('0' <= c <= '9') || c == '_' || c == '-'
  }

  /** What the greedy `([^&\n?#]+)` takes from `s`: the longest prefix made of
      capture characters (the group fails when it is empty). */
  function IdRun(s: string): (r: string)
    ensures r <= s
    ensures forall k :: 0 <= k < |r| ==> IsIdChar(r[k])
    ensures |r| < |s| ==> !IsIdChar(s[|r|])
  {
    if s == [] || !IsIdChar(s[0]) then [] else [s[0]] + IdRun(s[1..])
  }

  /** The literal alternatives of the first pattern, in the order the regular
      expression tries them. */
  const Markers: seq<string> := ["youtube.com/watch?v=", "youtu.be/", "youtube.com/embed/"]

  /** The alternative `marker` matches at position `i` of `u`: its literal is
      there and is followed by at least one capture character. */
  predicate Hits(u: string, i: nat, marker: string)
    requires i <= |u|
  {
    marker <= u[i..] && IdRun(u[i + |marker|..]) != []
  }

  /** The alternative the regular expression settles on at position `i`,
      trying them in order from the `k`-th on; `|markers|` when none
      matches. */
  function FirstAlternative(u: string, i: nat, markers: seq<string>, k: nat): (m: nat)
    requires i <= |u| && k <= |markers|
    decreases |u| - i + |markers| - k
    ensures k <= m <= |markers|
    ensures m < |markers| ==> Hits(u, i, markers[m])
    ensures forall p :: k <= p < m ==> !Hits(u, i, markers[p])
  {
    if k == |markers| then k
    else if Hits(u, i, markers[k]) then k
    else FirstAlternative(u, i, markers, k + 1)
  }

  /** The first pattern tried at position `i`: the capture of the first
      alternative that matches there. */
  function MatchAt(u: string, i: nat): Option<string>
    requires i <= |u|
  {
    var m := FirstAlternative(u, i, Markers, 0);
    if m < |Markers| then Some(IdRun(u[i + |Markers[m]|..])) else None
  }

  /** The first pattern tried at every position of `u`, its end included. */
  function MatchesAt(u: string): (ms: seq<Option<string>>)
    ensures |ms| == |u| + 1
  {
    seq(|u| + 1, j requires 0 <= j <= |u| => MatchAt(u, j))
  }

  /** `u.match(pattern)` for the unanchored first pattern is the leftmost
      match: the first entry of `MatchesAt(u)` from `i` on that holds one. */
  function Leftmost(ms: seq<Option<string>>, i: nat): Option<string>
    requires i <= |ms|
    decreases |ms| - i
  {
    if i == |ms| then None
    else if ms[i].Some? then ms[i]
    else Leftmost(ms, i + 1)
  }

  /** The search finds nothing exactly when no position from `i` on holds a
      match. */
  lemma {:induction false} LeftmostNone(ms: seq<Option<string>>, i: nat)
    requires i <= |ms|
    ensures Leftmost(ms, i).None? <==> forall j :: i <= j < |ms| ==> ms[j].None?
    decreases |ms| - i
  {
    if i < |ms| {
      LeftmostNone(ms, i + 1);
    }
  }

  /** What the search finds is the match at the leftmost position that
      holds one. */
  lemma {:induction false} LeftmostIndex(ms: seq<Option<string>>, i: nat) returns (j: nat)
    requires i <= |ms| && Leftmost(ms, i).Some?
    ensures i <= j < |ms| && ms[j] == Leftmost(ms, i)
    ensures forall p :: i <= p < j ==> ms[p].None?
    decreases |ms| - i
  {
    if ms[i].Some? {
      j := i;
    } else {
      j := LeftmostIndex(ms, i + 1);
    }
  }

  /** `v` occurs in `u` starting at position `i`. */
  predicate OccursAt(v: string, u: string, i: nat)
  {
    i + |v| <= |u| && u[i..i + |v|] == v
  }

  /** The second pattern, `^([a-zA-Z0-9_-]{11})$`. */
  predicate IsBareId(u: string)
  {
    |u| == 11 && forall k :: 0 <= k < |u| ==> IsBareIdChar(u[k])
  }

  /** `extractVideoId(url)`: the capture of the first pattern's leftmost match,
      else the whole input when it is a bare id, else nothing (`''` in the
      info routes, `null` in the helper library). */
  function ExtractVideoId(u: string): (r: Option<string>)
    ensures r.Some? ==> r.value != [] && forall k :: 0 <= k < |r.value| ==> IsIdChar(r.value[k])
    ensures r.Some? ==> exists i :: OccursAt(r.value, u, i)
    ensures r.None? <==> Leftmost(MatchesAt(u), 0).None? && !IsBareId(u)
    ensures Leftmost(MatchesAt(u), 0).None? && IsBareId(u) ==> r == Some(u)
  {
    var found := Leftmost(MatchesAt(u), 0);
    if found.Some? then
      MatchIsSlice(u);
      found
    else if IsBareId(u) then
      assert OccursAt(u, u, 0);
      Some(u)
    else None
  }

  /** When the first pattern matches, the id is the capture at the leftmost
      position where some alternative matches, taken after the first
      alternative that matches there, and it is the longest run of capture
      characters that follows. */
  lemma ExtractVideoIdIsLeftmostCapture(u: string) returns (j: nat, m: nat)
    requires Leftmost(MatchesAt(u), 0).Some?
    ensures j <= |u| && m < |Markers| && Hits(u, j, Markers[m])
    ensures forall p, q :: 0 <= p < j && 0 <= q < |Markers| ==> !Hits(u, p, Markers[q])
    ensures forall q :: 0 <= q < m ==> !Hits(u, j, Markers[q])
    ensures ExtractVideoId(u) == Some(IdRun(u[j + |Markers[m]|..]))
  {
    var ms := MatchesAt(u);
    j := LeftmostIndex(ms, 0);
    m := FirstAlternative(u, j, Markers, 0);
    assert ms[j] == MatchAt(u, j);
    forall p, q | 0 <= p < j && 0 <= q < |Markers|
      ensures !Hits(u, p, Markers[q])
    {
      assert ms[p] == MatchAt(u, p);
      assert FirstAlternative(u, p, Markers, 0) == |Markers|;
    }
  }

  /** When no alternative matches anywhere, only the bare-id pattern is
      left. */
  lemma ExtractVideoIdWithoutMatch(u: string)
    requires forall p, q :: 0 <= p <= |u| && 0 <= q < |Markers| ==> !Hits(u, p, Markers[q])
    ensures ExtractVideoId(u) == if IsBareId(u) then Some(u) else None
  {
    var ms := MatchesAt(u);
    forall p | 0 <= p < |ms|
      ensures ms[p].None?
    {
      assert ms[p] == MatchAt(u, p);
    }
    LeftmostNone(ms, 0);
  }

  /** What the search finds is a non-empty run of capture characters taken
      from the input. */
  lemma MatchIsSlice(u: string)
    requires Leftmost(MatchesAt(u), 0).Some?
    ensures var v := Leftmost(MatchesAt(u), 0).value; v != [] && forall k :: 0 <= k < |v| ==> IsIdChar(v[k])
    ensures exists i :: OccursAt(Leftmost(MatchesAt(u), 0).value, u, i)
  {
    var found := Leftmost(MatchesAt(u), 0);
    var j := LeftmostIndex(MatchesAt(u), 0);
    assert MatchAt(u, j) == found;
    var m := FirstAlternative(u, j, Markers, 0);
    var p := j + |Markers[m]|;
    assert found.value == IdRun(u[p..]);
    CaptureOccurs(u, p);
    assert OccursAt(found.value, u, p);
  }

  /** What the capture group takes at position `p` is the slice of `u` there. */
  lemma CaptureOccurs(u: string, p: nat)
    requires p <= |u|
    ensures OccursAt(IdRun(u[p..]), u, p)
  {
    var v := IdRun(u[p..]);
    assert u[p..][..|v|] == u[p..p + |v|];
  }

  /** Every literal of the first pattern contains a `.`, which no bare id
      does, so a bare id never matches the first pattern and always comes
      back unchanged from the second. */
  lemma BareIdReturnedUnchanged(u: string)
    requires IsBareId(u)
    ensures ExtractVideoId(u) == Some(u)
  {
    forall j | 0 <= j <= |u|
      ensures MatchAt(u, j).None?
    {
      forall m | 0 <= m < |Markers|
        ensures !(Markers[m] <= u[j..])
      {
        var d := if m == 1 then 5 else 7;
        assert Markers[m][d] == '.';
      }
    }
    LeftmostNone(MatchesAt(u), 0);
  }

  lemma {:induction false} IdRunStopsAt(s: string, t: string)
    requires forall k :: 0 <= k < |s| ==> IsIdChar(s[k])
    requires t == [] || !IsIdChar(t[0])
    ensures IdRun(s + t) == s
  {
    if s != [] {
      assert (s + t)[1..] == s[1..] + t;
      IdRunStopsAt(s[1..], t);
    } else {
      assert s + t == t;
    }
  }
}
