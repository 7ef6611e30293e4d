/** The two parsers of app.py used one after the other (app.py:278-306): a URL
    that `validate_youtube_url` accepts always yields, from
    `extract_video_id`, the very identifier the validating pattern matched. */
module RoundTrip {
  import opened Text
  import opened Validation
  import opened Extraction

  /** A literal segment free of `v` and `/` holds no start of the first
      extraction pattern. */
  lemma NoDelimiterIn(url: string, a: nat, seg: string)
    requires LiteralAt(url, a, seg) && 'v' !in seg && '/' !in seg
    ensures forall k :: a <= k < a + |seg| ==> DelimitedAt(url, k).None?
  {
    forall k | a <= k < a + |seg|
      ensures DelimitedAt(url, k).None?
    {
      assert url[k] == url[a..a + |seg|][k - a] == seg[k - a];
      assert k + 2 <= |url| ==> url[k..k + 2][0] == url[k];
      assert k + 1 <= |url| ==> url[k..k + 1][0] == url[k];
    }
  }

  /** A `/` at `k` whose eleven following characters include one that is not
      an identifier character does not start a match of the first pattern. */
  lemma SlashBlocked(url: string, k: nat, j: nat)
    requires k < j < k + 1 + VideoIdLength && j < |url|
    requires url[k] == '/' && !IsIdChar(url[j])
    ensures DelimitedAt(url, k).None?
  {
    NonIdCharBlocksId(url, k + 1, j);
    assert k + 2 <= |url| ==> url[k..k + 2][0] == '/';
  }

  /** Part of a literal is a literal. */
  lemma LiteralPart(s: string, k: nat, lit: string, i: nat, j: nat)
    requires LiteralAt(s, k, lit) && i <= j <= |lit|
    ensures LiteralAt(s, k + i, lit[i..j])
  {
    forall t | 0 <= t < j - i
      ensures s[k + i..k + j][t] == lit[i..j][t]
    {
      assert s[k + i + t] == s[k..k + |lit|][i + t];
    }
  }

  /** Index, within the host, of the character that ends the first eleven
      characters after `//` when no `www.` comes between: the `.` of
      `youtube.com` or of `youtu.be`. */
  function HostDot(shape: Shape): (n: nat)
    ensures n < |Host(shape)| && Host(shape)[n] == '.'
  {
    if shape == Short then 5 else 7
  }

  /** No match of the first pattern starts inside `http://` or `https://`
      when a `.` comes within the eleven characters after it: `h`, `t`, `p`,
      `s` and `:` start none, the first `/` is followed by the second, and
      the second is followed by the `.`. */
  lemma NoDelimiterInScheme(url: string, a: nat, dot: nat)
    requires 0 < a <= |url| && url[..a] in Schemes
    requires a <= dot < a + 10 && dot < |url| && url[dot] == '.'
    ensures forall k :: 0 <= k < a ==> DelimitedAt(url, k).None?
  {
    var scheme := url[..a];
    assert LiteralAt(url, 0, scheme);
    LiteralPart(url, 0, scheme, 0, a - 2);
    if a == 7 {
      assert scheme == "http://" && scheme[..a - 2] == "http:";
    } else {
      assert scheme == "https://" && scheme[..a - 2] == "https:";
    }
    NoDelimiterIn(url, 0, scheme[..a - 2]);
    assert url[a - 2] == scheme[a - 2] == '/';
    assert url[a - 1] == scheme[a - 1] == '/';
    SlashBlocked(url, a - 2, a - 1);
    SlashBlocked(url, a - 1, dot);
  }

  /** The first character after the scheme that stops an identifier: the
      `.` of `www.`, or else the `.` of the host. */
  function FirstDot(url: string, shape: Shape): nat {
    var a := SchemeLength(url);
    if HostStart(url) > a then a + 3 else HostStart(url) + HostDot(shape)
  }

  lemma FirstDotIsDot(url: string, shape: Shape)
    requires LiteralAt(url, HostStart(url), Host(shape))
    ensures SchemeLength(url) <= FirstDot(url, shape) < SchemeLength(url) + 10
    ensures FirstDot(url, shape) < |url| && url[FirstDot(url, shape)] == '.'
  {
    var a := SchemeLength(url);
    var q := HostStart(url);
    var h := Host(shape);
    if q > a {
      assert url[a..q] == "www.";
      assert url[a + 3] == url[a..q][3];
    } else {
      assert url[q + HostDot(shape)] == url[q..q + |h|][HostDot(shape)];
    }
  }

  /** No match of the first pattern starts inside the scheme or the `www.`. */
  lemma NoDelimiterBeforeHost(url: string, shape: Shape)
    requires LiteralAt(url, HostStart(url), Host(shape))
    ensures forall k :: 0 <= k < HostStart(url) ==> DelimitedAt(url, k).None?
  {
    var a := SchemeLength(url);
    var q := HostStart(url);
    FirstDotIsDot(url, shape);
    if a > 0 {
      NoDelimiterInScheme(url, a, FirstDot(url, shape));
    }
    if q > a {
      assert LiteralAt(url, a, "www.");
      NoDelimiterIn(url, a, "www.");
    }
  }

  /** Index of the `v=` or `/` right before the identifier in `Host(shape)`. */
  function DelimiterOffset(shape: Shape): nat {
    match shape
    case Watch => 18
    case Short => 8
    case Embed => 17
  }

  /** The same for `youtu.be/`: no `v` and no `/` before the delimiter. */
  lemma NoDelimiterInShortHost(url: string, q: nat)
    requires LiteralAt(url, q, Host(Short))
    ensures forall k :: q <= k < q + DelimiterOffset(Short) ==> DelimitedAt(url, k).None?
  {
    LiteralPart(url, q, Host(Short), 0, 8);
    assert Host(Short)[..8] == "youtu.be";
    NoDelimiterIn(url, q, "youtu.be");
  }

  /** A path segment `/` + five letters without `v` + a character that is not
      an identifier character holds no match start before that character. */
  lemma NoDelimiterInPath(url: string, p: nat, path: string)
    requires LiteralAt(url, p, path) && |path| == 7 && path[0] == '/' && !IsIdChar(path[6])
    requires 'v' !in path[1..6] && '/' !in path[1..6]
    ensures forall k :: p <= k < p + 6 ==> DelimitedAt(url, k).None?
  {
    assert url[p] == url[p..p + 7][0];
    assert url[p + 6] == url[p..p + 7][6];
    SlashBlocked(url, p, p + 6);
    LiteralPart(url, p, path, 1, 6);
    NoDelimiterIn(url, p + 1, path[1..6]);
  }

  /** The `youtube.com` that starts the long hosts holds no match start. */
  lemma NoDelimiterInDomain(url: string, q: nat, shape: Shape)
    requires shape != Short && LiteralAt(url, q, Host(shape))
    ensures forall k :: q <= k < q + 11 ==> DelimitedAt(url, k).None?
  {
    LiteralPart(url, q, Host(shape), 0, 11);
    assert Host(shape)[0..11] == "youtube.com";
    NoDelimiterIn(url, q, "youtube.com");
  }

  /** Inside `youtube.com/watch?v=`: the `/` of the path is followed by
      `watch?`, whose `?` is not an identifier character. */
  lemma NoDelimiterInWatchHost(url: string, q: nat)
    requires LiteralAt(url, q, Host(Watch))
    ensures forall k :: q <= k < q + DelimiterOffset(Watch) ==> DelimitedAt(url, k).None?
  {
    var h := Host(Watch);
    NoDelimiterInDomain(url, q, Watch);
    LiteralPart(url, q, h, 11, 18);
    assert h[11..18] == "/watch?";
    NoDelimiterInPath(url, q + 11, "/watch?");
    LiteralPart(url, q, h, 17, 18);
    assert h[17..18] == "?";
    NoDelimiterIn(url, q + 17, "?");
  }

  /** Inside `youtube.com/embed/`: the `/` of the path is followed by
      `embed/`, whose `/` is not an identifier character. */
  lemma NoDelimiterInEmbedHost(url: string, q: nat)
    requires LiteralAt(url, q, Host(Embed))
    ensures forall k :: q <= k < q + DelimiterOffset(Embed) ==> DelimitedAt(url, k).None?
  {
    var h := Host(Embed);
    NoDelimiterInDomain(url, q, Embed);
    LiteralPart(url, q, h, 11, 18);
    assert h[11..18] == "/embed/";
    NoDelimiterInPath(url, q + 11, "/embed/");
  }

  /** The delimiter before the identifier starts the leftmost match of the
      first pattern. */
  lemma DelimiterIsFirstMatch(url: string, shape: Shape, d: nat)
    requires MatchShape(url, shape).Some?
    requires d == HostStart(url) + DelimiterOffset(shape)
    requires forall k :: 0 <= k < d ==> DelimitedAt(url, k).None?
    requires DelimitedAt(url, d) == MatchShape(url, shape)
    ensures ExtractVideoId(url) == MatchShape(url, shape)
  {
    assert FirstMatchAt(Delimited, url, 0, d);
    ExtractVideoIdIsLeftmost(url, d);
  }

  /** A `/` followed by an identifier matches the first pattern. */
  lemma SlashThenId(url: string, d: nat)
    requires LiteralAt(url, d, "/") && IdAt(url, d + 1)
    ensures DelimitedAt(url, d) == Some(IdFrom(url, d + 1))
  {
    assert d + 2 <= |url| ==> url[d..d + 2][0] == url[d..d + 1][0];
  }

  /** The delimiter before the identifier, on its own, matches the first
      pattern and captures the identifier. */
  lemma DelimiterBeforeId(url: string, shape: Shape)
    requires MatchShape(url, shape).Some?
    ensures DelimitedAt(url, HostStart(url) + DelimiterOffset(shape)) == MatchShape(url, shape)
  {
    var q := HostStart(url);
    var h := Host(shape);
    var d := q + DelimiterOffset(shape);
    LiteralPart(url, q, h, DelimiterOffset(shape), |h|);
    if shape == Watch {
      assert h[DelimiterOffset(shape)..] == "v=";
    } else {
      assert h[DelimiterOffset(shape)..] == "/";
      SlashThenId(url, d);
    }
  }

  lemma WatchIdIsExtracted(url: string)
    requires MatchShape(url, Watch).Some?
    ensures ExtractVideoId(url) == MatchShape(url, Watch)
  {
    NoDelimiterBeforeHost(url, Watch);
    NoDelimiterInWatchHost(url, HostStart(url));
    DelimiterBeforeId(url, Watch);
    DelimiterIsFirstMatch(url, Watch, HostStart(url) + DelimiterOffset(Watch));
  }

  lemma ShortIdIsExtracted(url: string)
    requires MatchShape(url, Short).Some?
    ensures ExtractVideoId(url) == MatchShape(url, Short)
  {
    NoDelimiterBeforeHost(url, Short);
    NoDelimiterInShortHost(url, HostStart(url));
    DelimiterBeforeId(url, Short);
    DelimiterIsFirstMatch(url, Short, HostStart(url) + DelimiterOffset(Short));
  }

  lemma EmbedIdIsExtracted(url: string)
    requires MatchShape(url, Embed).Some?
    ensures ExtractVideoId(url) == MatchShape(url, Embed)
  {
    NoDelimiterBeforeHost(url, Embed);
    NoDelimiterInEmbedHost(url, HostStart(url));
    DelimiterBeforeId(url, Embed);
    DelimiterIsFirstMatch(url, Embed, HostStart(url) + DelimiterOffset(Embed));
  }

  /** Round trip: the identifier a validating pattern matched is the one
      extraction returns. */
  lemma MatchedIdIsExtracted(url: string, shape: Shape)
    requires MatchShape(url, shape).Some?
    ensures ExtractVideoId(url) == MatchShape(url, shape)
  {
    match shape {
      case Watch => WatchIdIsExtracted(url);
      case Short => ShortIdIsExtracted(url);
      case Embed => EmbedIdIsExtracted(url);
    }
  }

  /** Every URL `validate_youtube_url` accepts has an identifier, and it is
      the identifier of an accepted shape. */
  lemma ValidatedUrlHasVideoId(url: string)
    requires ValidateYoutubeUrl(url)
    ensures ExtractVideoId(url).Some?
    ensures exists shape :: Accepts(url, shape, ExtractVideoId(url).value)
  {
    var shape :| MatchShape(url, shape).Some?;
    MatchedIdIsExtracted(url, shape);
  }
}
