/** `extract_video_id` (app.py:33-47): three patterns tried in order with
    `re.search`; the first group of the first pattern that finds a match is
    returned when it is 11 characters long.

    `re.search` is modelled by hand: it tries the start indices 0, 1, ..., |s|
    in turn and reports the first at which the pattern matches; at one start
    index the alternatives of a group are tried left to right; a greedy `.+`
    or `.*` first takes the whole rest of the line (`.` does not match a
    newline) and gives characters back one at a time, so the literal after it
    is found at the rightmost index that lets the rest of the pattern match. */
module Extraction {
  import opened Text

  /** The three search patterns, in the order the source lists them:
      `(?:v=|/)([0-9A-Za-z_-]{11}).*`,
      `(?:embed/|v/|.+\?v=|watch\?.*v=)([A-Za-z0-9_-]{11})` and
      `(?:youtu\.be/)([A-Za-z0-9_-]{11})`. */
  datatype Pattern = Delimited | PathOrQuery | ShortLink

  const Patterns: seq<Pattern> := [Delimited, PathOrQuery, ShortLink]

  /** The first pattern tried at index `i`: `v=` or `/`, then the identifier.
      The trailing `.*` always matches and captures nothing. */
  function DelimitedAt(s: string, i: nat): (r: Option<string>)
    ensures r.Some? ==> IsVideoId(r.value)
    ensures r.Some? <==> (LiteralAt(s, i, "v=") && IdAt(s, i + 2)) || (LiteralAt(s, i, "/") && IdAt(s, i + 1))
  {
    if LiteralAt(s, i, "v=") && IdAt(s, i + 2) then Some(IdFrom(s, i + 2))
    else if LiteralAt(s, i, "/") && IdAt(s, i + 1) then Some(IdFrom(s, i + 1))
    else None
  }

  /** The end of the line that contains index `i`: how far `.` can reach. */
  function LineEnd(s: string, i: nat): (e: nat)
    requires i <= |s|
    ensures i <= e <= |s| && (e < |s| ==> s[e] == '\n')
    ensures forall k :: i <= k < e ==> s[k] != '\n'
    decreases |s| - i
  {
    if i == |s| || s[i] == '\n' then i else LineEnd(s, i + 1)
  }

  /** `lit` followed by an identifier matches at index `k`. */
  predicate LiteralThenIdAt(s: string, k: nat, lit: string) {
    LiteralAt(s, k, lit) && IdAt(s, k + |lit|)
  }

  /** Backtracking of a greedy `.*` or `.+` that may end anywhere in
      `[lo, hi]`: the largest end `k` after which `lit` and an identifier
      match. */
  function LastLiteralThenId(s: string, lit: string, lo: nat, hi: nat): (r: Option<nat>)
    ensures r.Some? ==> lo <= r.value <= hi && LiteralThenIdAt(s, r.value, lit)
    ensures r.Some? ==> forall k :: r.value < k <= hi ==> !LiteralThenIdAt(s, k, lit)
    ensures r.None? ==> forall k :: lo <= k <= hi ==> !LiteralThenIdAt(s, k, lit)
    decreases hi
  {
    if hi < lo then None
    else if LiteralThenIdAt(s, hi, lit) then Some(hi)
    else if hi == lo then None
    else LastLiteralThenId(s, lit, lo, hi - 1)
  }

  /** The second pattern tried at index `i`, alternative by alternative:
      `embed/`, `v/`, `.+\?v=` (at least one character of the line, then
      `?v=`) and `watch\?.*v=`. */
  function PathOrQueryAt(s: string, i: nat): (r: Option<string>)
    requires i <= |s|
    ensures r.Some? ==> IsVideoId(r.value)
  {
    if LiteralThenIdAt(s, i, "embed/") then Some(IdFrom(s, i + 6))
    else if LiteralThenIdAt(s, i, "v/") then Some(IdFrom(s, i + 2))
    else match LastLiteralThenId(s, "?v=", i + 1, LineEnd(s, i))
      case Some(k) => Some(IdFrom(s, k + 3))
      case None =>
        if LiteralAt(s, i, "watch?") then
          match LastLiteralThenId(s, "v=", i + 6, LineEnd(s, i + 6))
          case Some(k) => Some(IdFrom(s, k + 2))
          case None => None
        else None
  }

  /** The third pattern tried at index `i`: `youtu.be/`, then the identifier. */
  function ShortLinkAt(s: string, i: nat): (r: Option<string>)
    ensures r.Some? ==> IsVideoId(r.value)
  {
    if LiteralThenIdAt(s, i, "youtu.be/") then Some(IdFrom(s, i + 9)) else None
  }

  /** Pattern `p` tried at start index `i`: the first group, or `None`. */
  function MatchAt(p: Pattern, s: string, i: nat): (r: Option<string>)
    requires i <= |s|
    ensures r.Some? ==> IsVideoId(r.value)
  {
    match p
    case Delimited => DelimitedAt(s, i)
    case PathOrQuery => PathOrQueryAt(s, i)
    case ShortLink => ShortLinkAt(s, i)
  }

  /** `j` is the leftmost start index at or after `i` where `p` matches. */
  predicate FirstMatchAt(p: Pattern, s: string, i: nat, j: nat) {
    i <= j <= |s| && MatchAt(p, s, j).Some? &&
    forall k :: i <= k < j ==> MatchAt(p, s, k).None?
  }

  /** `re.search` from start index `i` on. */
  function SearchFrom(p: Pattern, s: string, i: nat): (r: Option<string>)
    ensures r.Some? ==> exists j :: FirstMatchAt(p, s, i, j) && MatchAt(p, s, j) == r
    ensures r.None? ==> forall j :: i <= j <= |s| ==> MatchAt(p, s, j).None?
    decreases |s| + 1 - i
  {
    if i > |s| then None
    else if MatchAt(p, s, i).Some? then
      assert FirstMatchAt(p, s, i, i);
      MatchAt(p, s, i)
    else
      var r := SearchFrom(p, s, i + 1);
      FirstMatchFromNext(p, s, i);
      r
  }

  /** When `p` does not match at `i`, the first match from `i + 1` on is
      the first match from `i` on. */
  lemma FirstMatchFromNext(p: Pattern, s: string, i: nat)
    requires i <= |s| && MatchAt(p, s, i).None?
    ensures forall j :: FirstMatchAt(p, s, i + 1, j) ==> FirstMatchAt(p, s, i, j)
  {
  }

  /** `re.search(pattern, url)` followed by `match.group(1)`: the group of
      the leftmost match, or `None` when the pattern matches nowhere. */
  function Search(p: Pattern, s: string): (r: Option<string>)
    ensures r.Some? ==> exists j :: FirstMatchAt(p, s, 0, j) && MatchAt(p, s, j) == r
    ensures r.None? <==> forall j :: 0 <= j <= |s| ==> MatchAt(p, s, j).None?
  {
    SearchFrom(p, s, 0)
  }

  /** The loop over the pattern list: the first group found, kept when it is
      11 characters long. */
  function ExtractWith(url: string, patterns: seq<Pattern>): (r: Option<string>)
    ensures r.Some? ==> IsVideoId(r.value)
    ensures r.Some? ==> exists k :: 0 <= k < |patterns| && Search(patterns[k], url) == r
  {
    if patterns == [] then None
    else
      var found := Search(patterns[0], url);
      if found.Some? && |found.value| == VideoIdLength then found
      else
        var r := ExtractWith(url, patterns[1..]);
        assert forall k :: 0 <= k < |patterns| - 1 ==> patterns[1..][k] == patterns[k + 1];
        r
  }

  /** `extract_video_id(url)`. */
  function ExtractVideoId(url: string): (r: Option<string>)
    ensures r.Some? ==> IsVideoId(r.value)
    ensures r.Some? ==> Search(Delimited, url) == r || Search(PathOrQuery, url) == r || Search(ShortLink, url) == r
  {
    ExtractWith(url, Patterns)
  }

  /** Where the second pattern matches, `/` or `v=` followed by the same
      identifier matches too: `embed/` and `v/` end in `/`, `?v=` and the `v=`
      after `watch?` contain `v=`. */
  lemma PathOrQueryNeedsDelimited(s: string, i: nat)
    requires i <= |s| && PathOrQueryAt(s, i).Some?
    ensures exists j :: 0 <= j <= |s| && MatchAt(Delimited, s, j).Some?
  {
    if LiteralThenIdAt(s, i, "embed/") {
      assert s[i + 5] == s[i..i + 6][5] == '/';
      assert s[i + 5..i + 6] == "/";
      assert MatchAt(Delimited, s, i + 5).Some?;
    } else if LiteralThenIdAt(s, i, "v/") {
      assert s[i + 1] == s[i..i + 2][1] == '/';
      assert s[i + 1..i + 2] == "/";
      assert MatchAt(Delimited, s, i + 1).Some?;
    } else if LastLiteralThenId(s, "?v=", i + 1, LineEnd(s, i)).Some? {
      var k := LastLiteralThenId(s, "?v=", i + 1, LineEnd(s, i)).value;
      assert s[k + 1..k + 3] == s[k..k + 3][1..] == "v=";
      assert MatchAt(Delimited, s, k + 1).Some?;
    } else {
      var k := LastLiteralThenId(s, "v=", i + 6, LineEnd(s, i + 6)).value;
      assert MatchAt(Delimited, s, k).Some?;
    }
  }

  /** Where the third pattern matches, the `/` of `youtu.be/` followed by the
      same identifier matches the first. */
  lemma ShortLinkNeedsDelimited(s: string, i: nat)
    requires i <= |s| && ShortLinkAt(s, i).Some?
    ensures exists j :: 0 <= j <= |s| && MatchAt(Delimited, s, j).Some?
  {
    assert s[i + 8] == s[i..i + 9][8] == '/';
    assert s[i + 8..i + 9] == "/";
    assert MatchAt(Delimited, s, i + 8).Some?;
  }

  /** A pattern that finds nothing anywhere makes `Search` give `None`. */
  lemma SearchNoneWhenNoMatch(p: Pattern, s: string)
    requires forall j :: 0 <= j <= |s| ==> MatchAt(p, s, j).None?
    ensures Search(p, s).None?
  {
  }

  /** The second and third patterns and the length check never change the
      result: extraction is the first pattern's search alone. */
  lemma {:induction false} LaterPatternsNeverDecide(url: string)
    ensures ExtractVideoId(url) == Search(Delimited, url)
  {
    var first := Search(Delimited, url);
    if first.None? {
      forall j | 0 <= j <= |url|
        ensures MatchAt(PathOrQuery, url, j).None? && MatchAt(ShortLink, url, j).None?
      {
        if MatchAt(PathOrQuery, url, j).Some? {
          PathOrQueryNeedsDelimited(url, j);
        }
        if MatchAt(ShortLink, url, j).Some? {
          ShortLinkNeedsDelimited(url, j);
        }
      }
      SearchNoneWhenNoMatch(PathOrQuery, url);
      SearchNoneWhenNoMatch(ShortLink, url);
      assert Patterns[1..][1..][1..] == [];
    } else {
      var j :| FirstMatchAt(Delimited, url, 0, j) && MatchAt(Delimited, url, j) == first;
    }
  }

  /** Extraction finds nothing exactly when no `v=` and no `/` is followed by
      eleven identifier characters. */
  lemma ExtractVideoIdNoneIff(url: string)
    ensures ExtractVideoId(url).None? <==> forall j :: 0 <= j <= |url| ==> DelimitedAt(url, j).None?
  {
    LaterPatternsNeverDecide(url);
    assert forall j :: 0 <= j <= |url| ==> MatchAt(Delimited, url, j) == DelimitedAt(url, j);
  }

  /** Extraction returns the identifier after the leftmost `v=` or `/` that
      eleven identifier characters follow. */
  lemma ExtractVideoIdIsLeftmost(url: string, j: nat)
    requires FirstMatchAt(Delimited, url, 0, j)
    ensures ExtractVideoId(url) == DelimitedAt(url, j)
    ensures LiteralAt(url, j, "v=") && IdAt(url, j + 2) ==> ExtractVideoId(url) == Some(url[j + 2..j + 13])
    ensures !(LiteralAt(url, j, "v=") && IdAt(url, j + 2)) ==>
              url[j] == '/' && j + 12 <= |url| && ExtractVideoId(url) == Some(url[j + 1..j + 12])
  {
    assert DelimitedAt(url, j).Some?;
    assert LiteralAt(url, j, "/") ==> url[j] == url[j..j + 1][0];
    LaterPatternsNeverDecide(url);
    var k :| FirstMatchAt(Delimited, url, 0, k) && MatchAt(Delimited, url, k) == Search(Delimited, url);
    assert k == j;
  }
}
