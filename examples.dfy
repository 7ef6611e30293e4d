/** Concrete URLs and what the model proves about them: the two accepted
    shapes of the standard example video, a URL of another site, the empty
    string, and a URL with text after the identifier. */
module Examples {
  import opened Text
  import opened Validation
  import opened Extraction
  import RoundTrip

  /** The identifier of the standard example video. */
  const ExampleId := "dQw4w9WgXcQ"

  lemma ExampleIdIsVideoId()
    ensures IsVideoId(ExampleId)
  {
    assert forall k :: 0 <= k < |ExampleId| ==> ExampleId[k] in "dQw4w9WgXcQ";
  }

  /** A URL that starts with an accepted scheme, subdomain and host and
      an identifier validates and extracts to that identifier. */
  lemma ReferenceFormRoundTrip(url: string, scheme: string, sub: string, shape: Shape, id: string)
    requires scheme in Schemes && sub in Subdomains && IsVideoId(id)
    requires scheme + sub + Host(shape) + id <= url
    ensures ValidateYoutubeUrl(url) && ExtractVideoId(url) == Some(id)
  {
    ReferenceFormMatches(url, shape, id, scheme, sub);
    RoundTrip.MatchedIdIsExtracted(url, shape);
  }

  /** `https://www.youtube.com/watch?v=dQw4w9WgXcQ` */
  lemma WatchUrlExample()
    ensures var url := "https://" + "www." + "youtube.com/watch?v=" + ExampleId;
            ValidateYoutubeUrl(url) && ExtractVideoId(url) == Some(ExampleId)
  {
    var url := "https://" + "www." + "youtube.com/watch?v=" + ExampleId;
    ExampleIdIsVideoId();
    assert "https://" in Schemes && "www." in Subdomains;
    assert Host(Watch) == "youtube.com/watch?v=";
    assert "https://" + "www." + Host(Watch) + ExampleId == url;
    ReferenceFormRoundTrip(url, "https://", "www.", Watch, ExampleId);
  }

  /** `https://youtu.be/dQw4w9WgXcQ` */
  lemma ShortUrlExample()
    ensures var url := "https://youtu.be/" + ExampleId;
            ValidateYoutubeUrl(url) && ExtractVideoId(url) == Some(ExampleId)
  {
    var url := "https://youtu.be/" + ExampleId;
    ExampleIdIsVideoId();
    assert "https://" in Schemes && "" in Subdomains;
    assert "https://" + "" + Host(Short) + ExampleId == url;
    ReferenceFormRoundTrip(url, "https://", "", Short, ExampleId);
  }

  /** Only the start is anchored: `youtu.be/dQw4w9WgXcQXYZ&t=42`, with more
      identifier characters after the eleventh, validates and extracts the
      first eleven. */
  lemma TrailingTextExample()
    ensures var url := "youtu.be/" + ExampleId + "XYZ&t=42";
            ValidateYoutubeUrl(url) && ExtractVideoId(url) == Some(ExampleId)
  {
    var url := "youtu.be/" + ExampleId + "XYZ&t=42";
    ExampleIdIsVideoId();
    assert "" in Schemes && "" in Subdomains;
    assert url[..20] == "" + "" + Host(Short) + ExampleId;
    ReferenceFormRoundTrip(url, "", "", Short, ExampleId);
  }

  lemma OtherSiteRejected()
    ensures !ValidateYoutubeUrl("https://vimeo.com/12345")
  {
    var url := "https://vimeo.com/12345";
    assert url[..8] == "https://";
    assert url[8..12][0] == url[8] == 'v';
    assert HostStart(url) == 8;
    forall shape
      ensures MatchShape(url, shape).None?
    {
      assert 8 + |Host(shape)| <= |url| ==> url[8..8 + |Host(shape)|][0] == 'v';
    }
  }

  lemma EmptyRejected()
    ensures !ValidateYoutubeUrl("")
    ensures ExtractVideoId("") == None
  {
    ExtractVideoIdNoneIff("");
  }
}
