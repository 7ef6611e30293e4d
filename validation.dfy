/** `validate_youtube_url` (app.py:20-31): the URL must start with one of three
    shapes, each `^(https?://)?(www\.)?<host>([a-zA-Z0-9_-]{11})`, tried with
    `re.match` (anchored at the start only, no `$`). */
module Validation {
  import opened Text

  /** The three accepted URL shapes, by the literal host-and-path part. */
  datatype Shape = Watch | Short | Embed

  function Host(shape: Shape): (h: string)
    ensures |h| >= 9 && h[0] == 'y'
  {
    match shape
    case Watch => "youtube.com/watch?v="
    case Short => "youtu.be/"
    case Embed => "youtube.com/embed/"
  }

  /** The shapes in the order the source lists its patterns. */
  const Shapes: seq<Shape> := [Watch, Short, Embed]

  /** Where `shape` stands in `Shapes`: every shape is listed. */
  function ShapeIndex(shape: Shape): (k: nat)
    ensures k < |Shapes| && Shapes[k] == shape
  {
    match shape
    case Watch => 0
    case Short => 1
    case Embed => 2
  }

  /** What `(https?://)?` can match, and what `(www\.)?` can match. */
  const Schemes: seq<string> := ["", "http://", "https://"]
  const Subdomains: seq<string> := ["", "www."]

  /** Reference definition: `url` starts with an optional scheme, an optional
      `www.`, the host of `shape` and then the identifier `id`. */
  ghost predicate Accepts(url: string, shape: Shape, id: string) {
    IsVideoId(id) &&
    exists scheme, sub :: scheme in Schemes && sub in Subdomains && scheme + sub + Host(shape) + id <= url
  }

  /** Length of the text `(https?://)?` consumes at the start of `url`: the
      group is greedy and is taken whenever it can match. */
  function SchemeLength(url: string): (n: nat)
    ensures n <= |url| && url[..n] in Schemes
  {
    if LiteralAt(url, 0, "https://") then 8
    else if LiteralAt(url, 0, "http://") then 7
    else 0
  }

  /** Length of the text `(www\.)?` consumes at index `p`. */
  function SubdomainLength(url: string, p: nat): (n: nat)
    requires p <= |url|
    ensures p + n <= |url| && url[p..p + n] in Subdomains
  {
    if LiteralAt(url, p, "www.") then 4 else assert url[p..p] == ""; 0
  }

  /** Index where the host must start: after the scheme and the subdomain. */
  function HostStart(url: string): (q: nat)
    ensures q <= |url|
  {
    SchemeLength(url) + SubdomainLength(url, SchemeLength(url))
  }

  /** `re.match` of the pattern of `shape` against `url`: the identifier the
      fourth group captures, or `None`. */
  function MatchShape(url: string, shape: Shape): (r: Option<string>)
    ensures r.Some? ==> Accepts(url, shape, r.value)
  {
    var q := HostStart(url);
    var h := Host(shape);
    if LiteralAt(url, q, h) && IdAt(url, q + |h|) then
      var id := IdFrom(url, q + |h|);
      MatchedPrefix(url, shape, id);
      Some(id)
    else None
  }

  /** The text `MatchShape` consumed is a prefix of the reference form. */
  lemma MatchedPrefix(url: string, shape: Shape, id: string)
    requires LiteralAt(url, HostStart(url), Host(shape))
    requires LiteralAt(url, HostStart(url) + |Host(shape)|, id)
    ensures exists scheme, sub :: scheme in Schemes && sub in Subdomains && scheme + sub + Host(shape) + id <= url
  {
    var a := SchemeLength(url);
    var q := HostStart(url);
    var scheme, sub := url[..a], url[a..q];
    assert scheme <= url;
    PrefixOfParts(url, scheme, sub);
    PrefixOfParts(url, scheme + sub, Host(shape));
    PrefixOfParts(url, scheme + sub + Host(shape), id);
  }

  /** The loop over the pattern list: true when some shape in `shapes` matches. */
  function AnyShapeMatches(url: string, shapes: seq<Shape>): (r: bool)
    ensures r <==> exists k :: 0 <= k < |shapes| && MatchShape(url, shapes[k]).Some?
  {
    if shapes == [] then false
    else if MatchShape(url, shapes[0]).Some? then true
    else
      var r := AnyShapeMatches(url, shapes[1..]);
      assert forall k :: 1 <= k < |shapes| ==> shapes[k] == shapes[1..][k - 1];
      r
  }

  /** `validate_youtube_url(url)`: the order of the patterns does not
      matter, only whether some shape matches. */
  function ValidateYoutubeUrl(url: string): (r: bool)
    ensures r <==> exists shape :: MatchShape(url, shape).Some?
  {
    ShapesListAll(url);
    AnyShapeMatches(url, Shapes)
  }

  /** Some listed shape matches exactly when some shape matches. */
  lemma ShapesListAll(url: string)
    ensures (exists k :: 0 <= k < |Shapes| && MatchShape(url, Shapes[k]).Some?) <==>
            (exists shape :: MatchShape(url, shape).Some?)
  {
    if exists shape :: MatchShape(url, shape).Some? {
      var shape :| MatchShape(url, shape).Some?;
      assert MatchShape(url, Shapes[ShapeIndex(shape)]).Some?;
    }
  }

  /** A scheme from the list followed by `w` or `y` is exactly what the
      greedy `(https?://)?` consumes. */
  lemma SchemeLengthOf(url: string, scheme: string)
    requires scheme in Schemes && scheme <= url
    requires |scheme| < |url| && (url[|scheme|] == 'w' || url[|scheme|] == 'y')
    ensures SchemeLength(url) == |scheme|
  {
    if scheme == "http://" {
      assert url[4] == scheme[4] == ':';
      assert |url| >= 8 ==> url[..8][4] != "https://"[4];
    } else if scheme == "" {
      assert |url| >= 8 ==> url[..8][0] != "https://"[0];
      assert |url| >= 7 ==> url[..7][0] != "http://"[0];
    }
  }

  /** A subdomain from the list followed by `y` is exactly what the greedy
      `(www\.)?` consumes. */
  lemma SubdomainLengthOf(url: string, p: nat, sub: string)
    requires sub in Subdomains && LiteralAt(url, p, sub)
    requires p + |sub| < |url| && url[p + |sub|] == 'y'
    ensures SubdomainLength(url, p) == |sub|
  {
    if sub == "" {
      assert p + 4 <= |url| ==> url[p..p + 4][0] != "www."[0];
    }
  }

  /** A prefix that starts like the reference definition fixes the lengths the
      greedy groups consume. */
  lemma GroupsAreDetermined(url: string, scheme: string, sub: string, shape: Shape)
    requires scheme in Schemes && sub in Subdomains && scheme + sub + Host(shape) <= url
    ensures HostStart(url) == |scheme| + |sub|
  {
    var h := Host(shape);
    var q := |scheme| + |sub|;
    ConcatPrefix(scheme + sub, h, url);
    ConcatPrefix(scheme, sub, url);
    assert url[q] == h[0] == 'y';
    assert url[|scheme|] == 'w' || url[|scheme|] == 'y' by {
      if sub != "" { assert url[|scheme|] == sub[0]; }
    }
    SchemeLengthOf(url, scheme);
    SubdomainLengthOf(url, |scheme|, sub);
  }

  /** A URL of the reference form with a given scheme and subdomain matches. */
  lemma ReferenceFormMatches(url: string, shape: Shape, id: string, scheme: string, sub: string)
    requires IsVideoId(id) && scheme in Schemes && sub in Subdomains
    requires scheme + sub + Host(shape) + id <= url
    ensures MatchShape(url, shape) == Some(id)
  {
    var h := Host(shape);
    var q := |scheme| + |sub|;
    ConcatPrefix(scheme + sub + h, id, url);
    assert |scheme + sub + h| == q + |h|;
    GroupsAreDetermined(url, scheme, sub, shape);
    ConcatPrefix(scheme + sub, h, url);
    VideoIdAt(url, q + |h|, id);
  }

  /** `MatchShape` agrees with the reference definition, in both directions. */
  lemma MatchShapeIsAccepts(url: string, shape: Shape, id: string)
    ensures MatchShape(url, shape) == Some(id) <==> Accepts(url, shape, id)
  {
    if Accepts(url, shape, id) {
      var scheme, sub :| scheme in Schemes && sub in Subdomains && scheme + sub + Host(shape) + id <= url;
      ReferenceFormMatches(url, shape, id, scheme, sub);
    }
  }

  /** Validation holds exactly when the URL has one of the accepted shapes. */
  lemma ValidateYoutubeUrlSpec(url: string)
    ensures ValidateYoutubeUrl(url) <==> exists shape, id :: Accepts(url, shape, id)
  {
    if ValidateYoutubeUrl(url) {
      var shape :| MatchShape(url, shape).Some?;
      assert Accepts(url, shape, MatchShape(url, shape).value);
    }
    if exists shape, id :: Accepts(url, shape, id) {
      var shape, id :| Accepts(url, shape, id);
      MatchShapeIsAccepts(url, shape, id);
    }
  }
}
