/**
 * server/services/youtubeService.js: video recommendations for a PDF. The
 * search query is the PDF's name without ".pdf", up to five keywords from the
 * first 500 characters of its text and " tutorial explanation", cut to 100
 * characters. The search never throws: a missing PDF or a failed request
 * gives an empty result, and without an API key the PDF's name is returned
 * with no videos and no request is made.
 */
module YouTubeService {
  import opened Wrappers
  import opened Text
  import opened Models

  /** Characters of the PDF text that keywords are drawn from. */
  const SnippetLength: nat := 500

  /** Keywords kept for the query. */
  const KeywordLimit: nat := 5

  /** Longest query sent. */
  const QueryLimit: nat := 100

  const PdfSuffix: string := ".pdf"
  const QuerySuffix: string := " tutorial explanation"
  const WatchPrefix: string := "https://www.youtube.com/watch?v="

  /** The `commonWords` list. */
  const StopWords: seq<string> :=
    ["the", "a", "an", "and", "or", "but", "in", "on", "at", "to", "for", "of", "with", "by"]

  /** `word.length > 4 && !commonWords.includes(word.toLowerCase())`. */
  predicate IsKeyword(word: string)
  {
    |word| > 4 && ToLower(word) !in StopWords
  }

  /** Every stop word is shorter than five characters, so the stop list never removes a
      word the length test keeps. */
  lemma KeywordIffLong(word: string)
    ensures IsKeyword(word) <==> |word| > 4
  {
    if |word| > 4 {
      assert forall k :: 0 <= k < |StopWords| ==> |StopWords[k]| <= 4;
      assert |ToLower(word)| > 4;
    }
  }

  /** `words.filter(isKeyword)`. */
  function Keywords(words: seq<string>): (r: seq<string>)
    ensures |r| <= |words|
    ensures forall k :: 0 <= k < |r| ==> IsKeyword(r[k]) && r[k] in words
  {
    if words == [] then []
    else (if IsKeyword(words[0]) then [words[0]] else []) + Keywords(words[1..])
  }

  /** The filter keeps every keyword of the input and only those. */
  lemma {:induction false} KeywordsExactly(words: seq<string>, w: string)
    ensures w in Keywords(words) <==> w in words && IsKeyword(w)
  {
    if words != [] {
      KeywordsExactly(words[1..], w);
      assert words == [words[0]] + words[1..];
    }
  }

  /** The filter keeps the words in their original order: it is the keyword filter of the
      first part followed by that of the rest. */
  lemma {:induction false} KeywordsAppend(a: seq<string>, b: seq<string>)
    ensures Keywords(a + b) == Keywords(a) + Keywords(b)
  {
    if a != [] {
      assert (a + b)[1..] == a[1..] + b;
      KeywordsAppend(a[1..], b);
    } else {
      assert a + b == b;
    }
  }

  /** `words.filter(...).slice(0, 5)` over the words of the first 500 characters. */
  function TopicKeywords(text: string): (r: seq<string>)
    ensures var ks := Keywords(Split(Prefix(text, SnippetLength)));
      r <= ks && |r| == Min(|ks|, KeywordLimit)
    ensures |r| <= KeywordLimit
    ensures forall k :: 0 <= k < |r| ==> |r[k]| > 4 && NoSpace(r[k])
  {
    var words := Split(Prefix(text, SnippetLength));
    var keywords := Keywords(words);
    var r := if |keywords| <= KeywordLimit then keywords else keywords[..KeywordLimit];
    SplitPieces(Prefix(text, SnippetLength), "");
    forall k | 0 <= k < |r| ensures |r[k]| > 4 && NoSpace(r[k]) {
      assert r[k] in keywords;
      var j :| 0 <= j < |words| && words[j] == r[k];
    }
    r
  }

  /** The untruncated query: the name without its first ".pdf", a space, the keywords
      joined by spaces, then " tutorial explanation". */
  function BaseQuery(text: string, pdfName: string): string
  {
    RemoveFirst(pdfName, PdfSuffix) + " " + Join(TopicKeywords(text), " ") + QuerySuffix
  }

  /** `extractTopics(text, pdfName)`: the query cut to its first 100 characters. */
  function ExtractTopics(text: string, pdfName: string): (q: string)
    ensures |q| == Min(|BaseQuery(text, pdfName)|, QueryLimit)
    ensures q <= BaseQuery(text, pdfName)
    ensures |BaseQuery(text, pdfName)| <= QueryLimit ==> q == BaseQuery(text, pdfName)
  {
    Prefix(BaseQuery(text, pdfName), QueryLimit)
  }

  /** Text after the first 500 characters never changes the query. */
  lemma ExtractTopicsIgnoresTail(text: string, tail: string, pdfName: string)
    requires |text| >= SnippetLength
    ensures ExtractTopics(text + tail, pdfName) == ExtractTopics(text, pdfName)
  {
    assert Prefix(text + tail, SnippetLength) == Prefix(text, SnippetLength);
  }

  /** The query opens with the name stripped of ".pdf" (as much of it as fits). */
  lemma QueryStartsWithName(text: string, pdfName: string)
    ensures Prefix(RemoveFirst(pdfName, PdfSuffix), QueryLimit) <= ExtractTopics(text, pdfName)
  {
    var stem := RemoveFirst(pdfName, PdfSuffix);
    var base := BaseQuery(text, pdfName);
    var rest := " " + Join(TopicKeywords(text), " ") + QuerySuffix;
    assert base == stem + rest;
    assert stem <= base;
  }

  /** A name ending in ".pdf" loses that suffix. */
  lemma StripsPdfSuffix()
    ensures RemoveFirst("notes.pdf", PdfSuffix) == "notes"
  {
    var s := "notes.pdf";
    assert OccursAt(s, PdfSuffix, 5);
    forall k: nat | k < 5 ensures !OccursAt(s, PdfSuffix, k) {
      assert s[k..k + 4][0] == s[k];
    }
  }

  /** Only the first ".pdf" is removed, wherever it is. */
  lemma StripsFirstPdfOnly()
    ensures RemoveFirst("a.pdf.pdf", PdfSuffix) == "a.pdf"
  {
    var s := "a.pdf.pdf";
    assert OccursAt(s, PdfSuffix, 1);
    assert s[0..4][0] == s[0];
  }

  /** The match is case-sensitive: ".PDF" stays. */
  lemma KeepsUpperCasePdf()
    ensures RemoveFirst("a.PDF", PdfSuffix) == "a.PDF"
  {
    var s := "a.PDF";
    forall k: nat ensures !OccursAt(s, PdfSuffix, k) {
      if k + 4 <= |s| {
        assert s[k..k + 4][1] == s[k + 1];
      }
    }
  }

  /** The fixed parameters of the search request besides the query and the key. */
  datatype SearchRequest = SearchRequest(
    part: string,
    q: string,
    searchType: string,
    maxResults: nat,
    videoCategoryId: string,
    relevanceLanguage: string,
    safeSearch: string)

  /** The request for a query: six videos of the Education category, in English, strictly
      filtered. */
  function Request(q: string): (r: SearchRequest)
    ensures r.q == q && r.maxResults == 6 && r.videoCategoryId == "27"
    ensures r.part == "snippet" && r.searchType == "video"
    ensures r.relevanceLanguage == "en" && r.safeSearch == "strict"
  {
    SearchRequest("snippet", q, "video", 6, "27", "en", "strict")
  }

  /** One search hit as the API returns it. */
  datatype ApiItem = ApiItem(
    videoId: string,
    title: string,
    description: string,
    mediumThumbnailUrl: string,
    channelTitle: string,
    publishedAt: string)

  /** One recommended video. */
  datatype Video = Video(
    id: string,
    title: string,
    description: string,
    thumbnail: string,
    channelTitle: string,
    publishedAt: string,
    url: string)

  /** The recommendations and the query they were searched with. */
  datatype SearchResult = SearchResult(query: string, videos: seq<Video>)

  /** A hit as a video, linked to its watch page. */
  function VideoOf(item: ApiItem): (v: Video)
    ensures v.url == WatchPrefix + item.videoId && v.id == item.videoId
    ensures v.title == item.title && v.description == item.description && v.thumbnail == item.mediumThumbnailUrl
    ensures v.channelTitle == item.channelTitle && v.publishedAt == item.publishedAt
  {
    Video(item.videoId, item.title, item.description, item.mediumThumbnailUrl, item.channelTitle,
      item.publishedAt, WatchPrefix + item.videoId)
  }

  /** The watch link gives back the video id. */
  lemma UrlNamesVideo(item: ApiItem)
    ensures var v := VideoOf(item);
      WatchPrefix <= v.url && v.url[|WatchPrefix|..] == v.id
  {
  }

  /** `searchYouTubeVideos(pdfId)`, with the API key's presence as `keySet` and the search
      endpoint as `api`, which fails with an error or returns the hits in order. */
  function SearchYouTubeVideos(pdfs: PdfStore, pdfId: string, keySet: bool,
                               api: SearchRequest -> Result<seq<ApiItem>>): (r: SearchResult)
    ensures pdfId !in pdfs ==> r == SearchResult("", [])
    ensures pdfId in pdfs && !keySet ==> r == SearchResult(pdfs[pdfId].originalName, [])
    ensures pdfId in pdfs && keySet ==>
      var q := ExtractTopics(pdfs[pdfId].textContent, pdfs[pdfId].originalName);
      match api(Request(q))
      case Err(_) => r == SearchResult("", [])
      case Ok(items) =>
        r.query == q && |r.videos| == |items|
        && forall k :: 0 <= k < |items| ==> r.videos[k] == VideoOf(items[k])
  {
    if pdfId !in pdfs then SearchResult("", [])
    else
      var pdf := pdfs[pdfId];
      if !keySet then SearchResult(pdf.originalName, [])
      else
        var searchQuery := ExtractTopics(pdf.textContent, pdf.originalName);
        match api(Request(searchQuery))
        case Err(_) => SearchResult("", [])
        case Ok(items) =>
          SearchResult(searchQuery, seq(|items|, k requires 0 <= k < |items| => VideoOf(items[k])))
  }

  /** Without a key no request is made: the result is the same whatever the API would do. */
  lemma NoKeyNoRequest(pdfs: PdfStore, pdfId: string, api1: SearchRequest -> Result<seq<ApiItem>>,
                       api2: SearchRequest -> Result<seq<ApiItem>>)
    ensures SearchYouTubeVideos(pdfs, pdfId, false, api1) == SearchYouTubeVideos(pdfs, pdfId, false, api2)
  {
  }

  /** A non-empty query always comes with the request that produced its videos, and every
      query the search reports is at most 100 characters unless it is the name reported
      without a key. */
  lemma ReportedQuery(pdfs: PdfStore, pdfId: string, keySet: bool, api: SearchRequest -> Result<seq<ApiItem>>)
    requires keySet
    ensures var r := SearchYouTubeVideos(pdfs, pdfId, keySet, api);
      |r.query| <= QueryLimit && (r.videos != [] ==> pdfId in pdfs && r.query <= BaseQuery(pdfs[pdfId].textContent, pdfs[pdfId].originalName))
  {
  }
}
