/** The coordinate extractor: choosing the action text of the map link and
    searching it for `lat=([0-9.]+)&lng=([0-9.]+)` as re.search does. */
module Coordinates {
  import opened Wrappers
  import opened Text

  /** The anchor inside a row's map cell, with its two attributes. */
  datatype Anchor = Anchor(onclick: Option<string>, href: Option<string>)

  /** `onclick or href`: the onclick text when it is present and non-empty,
      otherwise the href, which may itself be missing. */
  function ActionText(a: Anchor): (r: Option<string>)
    ensures a.onclick.Some? && a.onclick.value != [] ==> r == a.onclick
    ensures (a.onclick.None? || a.onclick.value == []) ==> r == a.href
  {
    if a.onclick.Some? && a.onclick.value != [] then a.onclick else a.href
  }

  /** The characters of the class [0-9.]. */
  predicate IsCoordChar(c: char) {
    ('0' <= c <= '9') || c == '.'
  }

  predicate AllCoordChars(s: string) {
    forall i :: 0 <= i < |s| ==> IsCoordChar(s[i])
  }

  /** What the greedy `[0-9.]+` consumes: the longest prefix of coordinate
      characters (empty when there is none, and then the group fails). */
  function Run(s: string): (r: string)
    ensures |r| <= |s| && r == s[..|r|]
    ensures AllCoordChars(r)
    ensures |r| == |s| || !IsCoordChar(s[|r|])
  {
    if s == [] || !IsCoordChar(s[0]) then [] else [s[0]] + Run(s[1..])
  }

  /** A successful search: where the match starts and its two groups. */
  datatype Match = Match(start: nat, lat: string, lng: string)

  /** The pattern tried at one position of `s`. Because `&` is not in
      [0-9.], the first group can only end where its run ends, so
      backtracking never finds another split. */
  function MatchAt(s: string, p: nat): Option<(string, string)>
    requires p <= |s|
  {
    var t := s[p..];
    if !StartsWith(t, "lat=") then None
    else
      var lat := Run(t[4..]);
      var u := t[4 + |lat|..];
      if lat == [] || !StartsWith(u, "&lng=") then None
      else
        var lng := Run(u[5..]);
        if lng == [] then None else Some((lat, lng))
  }

  /** re.search from position `from`: the leftmost position at which the
      pattern matches, with its groups; None when there is none. */
  function SearchFrom(s: string, from: nat): (r: Option<Match>)
    requires from <= |s|
    ensures r.Some? ==> from <= r.value.start <= |s|
    ensures r.Some? ==> MatchAt(s, r.value.start) == Some((r.value.lat, r.value.lng))
    ensures r.Some? ==> forall q :: from <= q < r.value.start ==> MatchAt(s, q).None?
    ensures r.None? ==> forall q :: from <= q <= |s| ==> MatchAt(s, q).None?
    decreases |s| - from
  {
    var m := MatchAt(s, from);
    if m.Some? then Some(Match(from, m.value.0, m.value.1))
    else if from == |s| then None
    else SearchFrom(s, from + 1)
  }

  /** re.search(pattern, s). */
  function Search(s: string): Option<Match> {
    SearchFrom(s, 0)
  }

  /** The pattern matches at `p` exactly when `s` reads, from `p` on,
      "lat=" a "&lng=" b with a and b non-empty runs of [0-9.] and b not
      followed by another such character; the groups are then a and b. */
  predicate MatchesLiterally(s: string, p: nat, lat: string, lng: string)
    requires p <= |s|
  {
    && lat != [] && AllCoordChars(lat)
    && lng != [] && AllCoordChars(lng)
    && StartsWith(s[p..], "lat=" + lat + "&lng=" + lng)
    && (p + 9 + |lat| + |lng| == |s| || !IsCoordChar(s[p + 9 + |lat| + |lng|]))
  }

  lemma MatchAtIsLiteral(s: string, p: nat, lat: string, lng: string)
    requires p <= |s| && MatchAt(s, p) == Some((lat, lng))
    ensures MatchesLiterally(s, p, lat, lng)
  {
    var t := s[p..];
    var u := t[4 + |lat|..];
    var whole := "lat=" + lat + "&lng=" + lng;
    assert t[..4] == "lat=";
    assert t[4..][..|lat|] == lat;
    assert u[..5] == "&lng=";
    assert u[5..][..|lng|] == lng;
    assert t[..|whole|] == t[..4] + t[4..][..|lat|] + u[..5] + u[5..][..|lng|];
    if p + 9 + |lat| + |lng| < |s| {
      assert s[p + 9 + |lat| + |lng|] == u[5..][|lng|];
    }
  }

  lemma LiteralIsMatchAt(s: string, p: nat, lat: string, lng: string)
    requires p <= |s| && MatchesLiterally(s, p, lat, lng)
    ensures MatchAt(s, p) == Some((lat, lng))
  {
    var t := s[p..];
    var whole := "lat=" + lat + "&lng=" + lng;
    assert t[..|whole|] == whole;
    var v := t[4..];
    var u := t[4 + |lat|..];
    assert StartsWith(t, "lat=") by {
      assert t[..4] == whole[..4];
    }
    assert StartsWith(v, lat) && (|lat| == |v| || !IsCoordChar(v[|lat|])) by {
      assert v[..|lat|] == whole[4..4 + |lat|];
      assert v[|lat|] == whole[4 + |lat|];
    }
    RunOfPrefix(v, lat);
    assert StartsWith(u, "&lng=") by {
      assert u[..5] == whole[4 + |lat|..9 + |lat|];
    }
    var w := u[5..];
    assert StartsWith(w, lng) by {
      assert w[..|lng|] == whole[9 + |lat|..];
    }
    assert |lng| == |w| || !IsCoordChar(w[|lng|]) by {
      if |lng| < |w| {
        assert w[|lng|] == s[p + 9 + |lat| + |lng|];
      }
    }
    RunOfPrefix(w, lng);
  }

  /** A run of coordinate characters that is not followed by another one is
      exactly what the greedy group consumes. */
  lemma {:induction false} RunOfPrefix(s: string, r: string)
    requires AllCoordChars(r) && StartsWith(s, r)
    requires |r| == |s| || !IsCoordChar(s[|r|])
    ensures Run(s) == r
  {
    if r != [] {
      RunOfPrefix(s[1..], r[1..]);
    }
  }

  /** The extractor is total on well-formed action text: when the text holds
      a match at `p` and none before it, the search returns exactly that
      match's two groups, whatever surrounds them. */
  lemma SearchFindsFirst(s: string, p: nat, lat: string, lng: string)
    requires p <= |s| && MatchesLiterally(s, p, lat, lng)
    requires forall q :: 0 <= q < p ==> MatchAt(s, q).None?
    ensures Search(s) == Some(Match(p, lat, lng))
  {
    LiteralIsMatchAt(s, p, lat, lng);
  }

  /** Python's float() on a [0-9.]+ string: it must hold at most one dot and
      at least one digit ("1.", ".5" and "12" are floats; "." and "1.2.3"
      are not). */
  predicate IsFloatText(s: string) {
    Text.Count(s, '.') <= 1 && Text.Count(s, '.') < |s|
  }
}
