/** The check that a submitted URL is a YouTube URL (backend/main.py, `is_valid_youtube_url`). */
module YoutubeUrl {
  import opened Text

  /** The domain strings a URL is matched against, in the order the code lists them. */
  const YoutubeDomains: seq<string> := ["youtube.com", "youtu.be", "www.youtube.com"]

  /** A URL is accepted when one of the listed domains occurs anywhere in it. */
  function IsValidYoutubeUrl(url: string): (b: bool)
    ensures b <==> exists d, i :: d in YoutubeDomains && OccursAt(d, url, i)
  {
    var b := ContainsAny(url, YoutubeDomains);
    assert b <==> exists k :: 0 <= k < |YoutubeDomains| && Contains(url, YoutubeDomains[k]);
    b
  }

  /** "www.youtube.com" adds nothing: acceptance is "youtube.com" or "youtu.be" occurring in the URL. */
  lemma WwwDomainRedundant(url: string)
    ensures IsValidYoutubeUrl(url) <==> Contains(url, "youtube.com") || Contains(url, "youtu.be")
  {
    if i :| OccursAt("www.youtube.com", url, i) {
      assert OccursAt("youtube.com", "www.youtube.com", 4);
      OccursAtTransitive("youtube.com", "www.youtube.com", url, 4, i);
    }
    assert YoutubeDomains[0] == "youtube.com" && YoutubeDomains[1] == "youtu.be";
  }

  /** The match is a bare substring test: any text containing a listed domain passes. */
  lemma AnyTextWithDomainAccepted(prefix: string, suffix: string)
    ensures IsValidYoutubeUrl(prefix + "youtu.be" + suffix)
  {
    var url := prefix + "youtu.be" + suffix;
    assert url[|prefix|..|prefix| + 8] == "youtu.be";
    assert OccursAt(YoutubeDomains[1], url, |prefix|);
  }

  /** A text with no dot contains none of the domains and is refused. */
  lemma TextWithoutDotRejected(url: string)
    requires forall k :: 0 <= k < |url| ==> url[k] != '.'
    ensures !IsValidYoutubeUrl(url)
  {
    forall d, i | d in YoutubeDomains
      ensures !OccursAt(d, url, i)
    {
      var k := if d == "youtu.be" then 5 else if d == "youtube.com" then 7 else 3;
      assert d[k] == '.';
      if 0 <= i && i + |d| <= |url| {
        assert url[i..i + |d|][k] != d[k];
      }
    }
  }
}
