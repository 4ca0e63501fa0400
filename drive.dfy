/**
 * `extractDriveThumbnail(url)`: the Google Drive file id found by the
 * first of three patterns that matches, turned into a thumbnail link.
 * Each pattern is a literal prefix followed by `([a-zA-Z0-9_-]+)`; a match
 * is the leftmost position where the prefix is followed by at least one id
 * character, and the id is the longest run of id characters there.
 */
module DriveLinks {
  import opened Wrappers

  predicate IsIdChar(c: char) {
    ('a' <= c <= 'z') || ('A' <= c <= 'Z') || ('0' <= c <= '9') || c == '_' || c == '-'
  }

  /** The literal parts of `/\/d\/(…)/`, `/id=(…)/` and `/folders\/(…)/`, in trial order. */
  const Prefixes: seq<string> := ["/d/", "id=", "folders/"]

  const ThumbnailPrefix: string := "https://drive.google.com/thumbnail?id="
  const ThumbnailSuffix: string := "&sz=w400"

  /** The pattern with literal `prefix` matches at position `i`. */
  predicate MatchesAt(url: string, prefix: string, i: nat) {
    i + |prefix| < |url| && url[i..i + |prefix|] == prefix && IsIdChar(url[i + |prefix|])
  }

  /** End of the longest run of id characters starting at `j`. */
  function RunEnd(s: string, j: nat): (e: nat)
    requires j <= |s|
    ensures j <= e <= |s|
    ensures forall k :: j <= k < e ==> IsIdChar(s[k])
    ensures e == |s| || !IsIdChar(s[e])
    decreases |s| - j
  {
    if j < |s| && IsIdChar(s[j]) then RunEnd(s, j + 1) else j
  }

  /** The leftmost match position at or after `from`. */
  function Leftmost(url: string, prefix: string, from: nat): (r: Option<nat>)
    ensures r.Some? ==> from <= r.value && MatchesAt(url, prefix, r.value)
                        && forall k :: from <= k < r.value ==> !MatchesAt(url, prefix, k)
    ensures r.None? ==> forall k :: from <= k ==> !MatchesAt(url, prefix, k)
    decreases |url| - from
  {
    if from >= |url| then None
    else if MatchesAt(url, prefix, from) then Some(from)
    else Leftmost(url, prefix, from + 1)
  }

  /** Capture group 1 of `url.match(pattern)`, or None when the pattern does not match. */
  function PatternId(url: string, prefix: string): (r: Option<string>)
    ensures r.Some? ==> |r.value| > 0 && forall k :: 0 <= k < |r.value| ==> IsIdChar(r.value[k])
  {
    match Leftmost(url, prefix, 0)
    case None => None
    case Some(i) => Some(url[i + |prefix|..RunEnd(url, i + |prefix|)])
  }

  /** The id from the first of `prefixes` that matches. */
  function FirstId(url: string, prefixes: seq<string>): (r: Option<string>)
    ensures r.Some? ==> |r.value| > 0 && forall k :: 0 <= k < |r.value| ==> IsIdChar(r.value[k])
  {
    if prefixes == [] then None
    else
      match PatternId(url, prefixes[0])
      case Some(id) => Some(id)
      case None => FirstId(url, prefixes[1..])
  }

  function ThumbnailUrl(id: string): string {
    ThumbnailPrefix + id + ThumbnailSuffix
  }

  /** The thumbnail link of the first matching pattern, or the url unchanged. */
  function DriveThumbnail(url: string): string {
    match FirstId(url, Prefixes)
    case Some(id) => ThumbnailUrl(id)
    case None => url
  }

  /** The loop over the patterns with its early return. */
  method ExtractDriveThumbnail(url: string) returns (thumbnail: string)
    ensures thumbnail == DriveThumbnail(url)
  {
    var p := 0;
    while p < |Prefixes|
      invariant 0 <= p <= |Prefixes|
      invariant FirstId(url, Prefixes) == FirstId(url, Prefixes[p..])
    {
      assert Prefixes[p..][1..] == Prefixes[p + 1..];
      var m := PatternId(url, Prefixes[p]);
      if m.Some? {
        return ThumbnailUrl(m.value);
      }
      p := p + 1;
    }
    return url;
  }

  /**
   * The first pattern that matches anywhere decides the id, even when a
   * later pattern matches further left.
   */
  lemma {:induction false} FirstMatchingPatternWins(url: string, prefixes: seq<string>, p: nat)
    requires p < |prefixes| && Leftmost(url, prefixes[p], 0).Some?
    requires forall q :: 0 <= q < p ==> Leftmost(url, prefixes[q], 0).None?
    ensures FirstId(url, prefixes) == PatternId(url, prefixes[p])
  {
    if p > 0 {
      assert Leftmost(url, prefixes[0], 0).None?;
      assert forall q :: 0 <= q < p - 1 ==> prefixes[1..][q] == prefixes[q + 1];
      FirstMatchingPatternWins(url, prefixes[1..], p - 1);
    }
  }

  /** No id is found exactly when no pattern matches anywhere. */
  lemma {:induction false} FirstIdNone(url: string, prefixes: seq<string>)
    ensures FirstId(url, prefixes).None? <==>
      forall q, k :: 0 <= q < |prefixes| && 0 <= k ==> !MatchesAt(url, prefixes[q], k)
  {
    if prefixes != [] {
      FirstIdNone(url, prefixes[1..]);
      assert forall q :: 1 <= q < |prefixes| ==> prefixes[q] == prefixes[1..][q - 1];
      if Leftmost(url, prefixes[0], 0).Some? {
        assert MatchesAt(url, prefixes[0], Leftmost(url, prefixes[0], 0).value);
      }
    }
  }

  /** A result is either the url itself or a thumbnail link around a non-empty id. */
  lemma ThumbnailShape(url: string)
    ensures DriveThumbnail(url) == url ||
      exists id :: |id| > 0 && (forall k :: 0 <= k < |id| ==> IsIdChar(id[k])) && DriveThumbnail(url) == ThumbnailUrl(id)
  {
  }

  /** A match with none before it (from `from` on) is the leftmost one. */
  lemma {:induction false} LeftmostAt(url: string, prefix: string, from: nat, i: nat)
    requires from <= i && MatchesAt(url, prefix, i)
    requires forall k :: from <= k < i ==> !MatchesAt(url, prefix, k)
    ensures Leftmost(url, prefix, from) == Some(i)
    decreases i - from
  {
    if from < i {
      LeftmostAt(url, prefix, from + 1, i);
    }
  }

  /** An `id=` link that also contains `/d/` further right yields the `/d/` id. */
  lemma PatternOrderExample()
    ensures DriveThumbnail("open?id=AAA/d/BBB") == ThumbnailUrl("BBB")
  {
    var url := "open?id=AAA/d/BBB";
    assert MatchesAt(url, "/d/", 11);
    forall k | 0 <= k < 11 ensures !MatchesAt(url, "/d/", k) {
      assert url[k..k + 3][0] == url[k];
      assert url[k] != '/' by { assert url[..11] == "open?id=AAA"; assert url[k] == url[..11][k]; }
    }
    LeftmostAt(url, "/d/", 0, 11);
    var e := RunEnd(url, 14);
    assert url[14] == 'B' && url[15] == 'B' && url[16] == 'B';
    assert e == 17;
    assert url[14..17] == "BBB";
  }
}
