/**
 * The scraping logic of `PremiershipRugby::Client` and
 * `PremiershipRugby::Replay`: turning listing entries into replays, reading a
 * replay's clip id from its `onclick` handler, classifying its title, building
 * its manifest query URI, and filtering the manifest's file paths by extension
 * and quality marker, with the path list fetched at most once per replay.
 *
 * HTTP and HTML/XML parsing are not modelled: a listing entry arrives as the
 * strings its CSS queries yield, and the manifest server is a function from a
 * manifest URI to the `externalPath` values of its `videofiles//file` nodes.
 */
module PremiershipRugby {
  import opened Wrappers
  import opened Seqs
  import opened Strings
  import opened Paths
  import opened Forms

  /** `SITE_ID`: the broadcaster's site number, used in the manifest path and query. */
  const SiteId: nat := 13118

  // ---------------------------------------------------------------------------
  // Manifest query (Replay#manifest_uri)
  // ---------------------------------------------------------------------------

  /** The query parameters, in the order the hash literal lists them. */
  function ManifestParams(id: string): seq<(string, string)>
  {
    [("videoType", NatToString(5)), ("type", NatToString(18)),
     ("sites", NatToString(SiteId)), ("clipId", id)]
  }

  function ManifestPath(): string
  {
    "/page/sva/xmlHttpRequest/0,," + NatToString(SiteId) + ",00.xml"
  }

  /** The relative URI of the XML manifest for clip `id`. */
  function ManifestUriFor(id: string): string
  {
    ManifestPath() + "?" + EncodeForm(ManifestParams(id))
  }

  lemma SiteIdDecimal()
    ensures NatToString(SiteId) == "13118"
  {
  }

  /** The numeric parameters render as their decimal digits. */
  lemma ManifestParamsDecimal(id: string)
    ensures ManifestParams(id) == [("videoType", "5"), ("type", "18"), ("sites", "13118"), ("clipId", id)]
  {
    SiteIdDecimal();
    assert NatToString(18) == "18" by {
      assert NatToString(18) == NatToString(1) + [DigitChar(8)];
    }
    assert NatToString(5) == "5";
  }

  lemma EncodeSitesOnward(id: string)
    ensures EncodeForm([("sites", "13118"), ("clipId", id)]) == "sites=13118&clipId=" + id
  {
  }

  lemma EncodeTypeOnward(id: string)
    ensures EncodeForm([("type", "18"), ("sites", "13118"), ("clipId", id)]) == "type=18&sites=13118&clipId=" + id
  {
    var rest := [("sites", "13118"), ("clipId", id)];
    EncodeSitesOnward(id);
    EncodeFormCons(("type", "18"), rest);
    assert [("type", "18")] + rest == [("type", "18"), ("sites", "13118"), ("clipId", id)];
    assert EncodePair(("type", "18")) + "&" == "type=18&";
    assert "type=18&" + ("sites=13118&clipId=" + id) == ("type=18&" + "sites=13118&clipId=") + id;
  }

  lemma EncodeManifestParams(id: string)
    ensures EncodeForm([("videoType", "5"), ("type", "18"), ("sites", "13118"), ("clipId", id)]) ==
              "videoType=5&type=18&sites=13118&clipId=" + id
  {
    var rest := [("type", "18"), ("sites", "13118"), ("clipId", id)];
    EncodeTypeOnward(id);
    EncodeFormCons(("videoType", "5"), rest);
    assert [("videoType", "5")] + rest == [("videoType", "5"), ("type", "18"), ("sites", "13118"), ("clipId", id)];
    assert EncodePair(("videoType", "5")) + "&" == "videoType=5&";
    assert "videoType=5&" + ("type=18&sites=13118&clipId=" + id) == ("videoType=5&" + "type=18&sites=13118&clipId=") + id;
  }

  lemma ManifestPathText()
    ensures ManifestPath() == "/page/sva/xmlHttpRequest/0,,13118,00.xml"
  {
  }

  /** The URI is the fixed path, then exactly these four parameters in this order, then the id. */
  lemma ManifestUriText(id: string)
    ensures ManifestUriFor(id) ==
              "/page/sva/xmlHttpRequest/0,,13118,00.xml" + "?" + "videoType=5&type=18&sites=13118&clipId=" + id
  {
    var path, query := "/page/sva/xmlHttpRequest/0,,13118,00.xml", "videoType=5&type=18&sites=13118&clipId=";
    ManifestParamsDecimal(id);
    EncodeManifestParams(id);
    ManifestPathText();
    assert ManifestUriFor(id) == path + "?" + (query + id);
  }

  lemma ManifestPathHasNoQuery()
    ensures '?' !in ManifestPath()
  {
  }

  lemma ManifestParamsUnreserved(id: string)
    requires IsUnreserved(id)
    ensures forall i :: 0 <= i < |ManifestParams(id)| ==> IsUnreservedPair(ManifestParams(id)[i])
  {
  }

  /**
   * Reading the URI back: the path before `?` is the manifest path, and the
   * query decodes to the four parameters in order, the last one the clip id.
   */
  lemma ManifestUriQuery(id: string)
    requires IsUnreserved(id)
    ensures BreakAt(ManifestUriFor(id), '?') ==
              ("/page/sva/xmlHttpRequest/0,,13118,00.xml", EncodeForm(ManifestParams(id)))
    ensures DecodeForm(BreakAt(ManifestUriFor(id), '?').1) ==
              [("videoType", "5"), ("type", "18"), ("sites", "13118"), ("clipId", id)]
  {
    var params := ManifestParams(id);
    ManifestPathHasNoQuery();
    BreakAtFirst(ManifestPath(), EncodeForm(params), '?');
    assert ManifestUriFor(id) == ManifestPath() + ['?'] + EncodeForm(params);
    ManifestPathText();
    ManifestParamsUnreserved(id);
    DecodeEncodeForm(params);
    ManifestParamsDecimal(id);
  }

  /** Distinct clip ids give distinct manifest URIs. */
  lemma ManifestUriInjective(a: string, b: string)
    requires ManifestUriFor(a) == ManifestUriFor(b)
    ensures a == b
  {
    ManifestUriText(a);
    ManifestUriText(b);
    var prefix := "/page/sva/xmlHttpRequest/0,,13118,00.xml" + "?" + "videoType=5&type=18&sites=13118&clipId=";
    assert a == (prefix + a)[|prefix|..];
    assert b == (prefix + b)[|prefix|..];
  }

  // ---------------------------------------------------------------------------
  // Clip id (the `playVideo(<digits>)` capture in Replay#initialize)
  // ---------------------------------------------------------------------------

  /** A clip id: one or more decimal digits. */
  predicate IsReplayId(id: string)
  {
    |id| > 0 && AllDigits(id)
  }

  /** The text `playVideo(<digits>)`. */
  function CallText(digits: string): string
  {
    "playVideo(" + digits + ")"
  }

  /** The regular expression `playVideo\((\d+)\)` matches at offset `i` of `s`, capturing `digits`. */
  ghost predicate CallAt(s: string, i: int, digits: string)
  {
    0 <= i <= |s| && IsReplayId(digits) && IsPrefix(CallText(digits), s[i..])
  }

  /** The capture of a match attempt at offset `i`: greedy `\d+` followed by `)`. */
  function MatchAt(s: string, i: nat): (m: Option<string>)
    requires i <= |s|
    ensures m.Some? ==> IsReplayId(m.value)
  {
    var t := s[i..];
    if IsPrefix("playVideo(", t) then
      var digits := DigitRun(t[10..]);
      if 0 < |digits| && 10 + |digits| < |t| && t[10 + |digits|] == ')' then Some(digits) else None
    else None
  }

  lemma MatchAtIff(s: string, i: nat, digits: string)
    requires i <= |s|
    ensures MatchAt(s, i) == Some(digits) <==> CallAt(s, i, digits)
  {
    var t := s[i..];
    if MatchAt(s, i) == Some(digits) {
      assert t[..10] == "playVideo(";
      assert t[10..][..|digits|] == digits;
      assert t[..|CallText(digits)|] == CallText(digits);
    }
    if CallAt(s, i, digits) {
      var call := CallText(digits);
      assert t[..|call|] == call;
      assert t[..10] == call[..10] == "playVideo(";
      var u := t[10..];
      assert u[..|digits|] == call[10..10 + |digits|] == digits;
      assert u[|digits|] == call[10 + |digits|] == ')';
      DigitRunUnique(u, digits);
    }
  }

  /** The results of attempting the match at every offset of `s`, left to right. */
  function Attempts(s: string): seq<Option<string>>
  {
    seq(|s| + 1, i requires 0 <= i <= |s| => MatchAt(s, i))
  }

  /** The clip id in an `onclick` value: the capture of the leftmost `playVideo(<digits>)` in it. */
  function ExtractId(onclick: string): (id: Option<string>)
    ensures id.Some? ==> IsReplayId(id.value)
  {
    FirstSome(Attempts(onclick))
  }

  /**
   * `ExtractId` finds a digit string exactly when the pattern occurs, and then
   * it is the capture of the leftmost occurrence.
   */
  lemma ExtractIdIsFirstCall(onclick: string)
    ensures ExtractId(onclick).None? <==> forall i, d :: !CallAt(onclick, i, d)
    ensures ExtractId(onclick).Some? ==>
              exists i :: CallAt(onclick, i, ExtractId(onclick).value) &&
                          forall j, d :: 0 <= j < i ==> !CallAt(onclick, j, d)
  {
    var ms := Attempts(onclick);
    assert |ms| == |onclick| + 1 && forall i :: 0 <= i <= |onclick| ==> ms[i] == MatchAt(onclick, i);
    FirstSomeIsLeftmost(ms);
    if ExtractId(onclick).None? {
      forall i, d ensures !CallAt(onclick, i, d) {
        if 0 <= i <= |onclick| {
          MatchAtIff(onclick, i, d);
        }
      }
    } else {
      var id := ExtractId(onclick).value;
      var i :| 0 <= i < |ms| && ms[i] == Some(id) && forall k :: 0 <= k < i ==> ms[k].None?;
      MatchAtIff(onclick, i, id);
      forall j, d | 0 <= j < i ensures !CallAt(onclick, j, d) {
        MatchAtIff(onclick, j, d);
      }
    }
  }

  /** An `onclick` value that opens with the call yields that call's digits. */
  lemma ExtractIdOfLeadingCall(digits: string, rest: string)
    requires IsReplayId(digits)
    ensures ExtractId(CallText(digits) + rest) == Some(digits)
  {
    var s := CallText(digits) + rest;
    assert s[0..] == s;
    assert s[..|CallText(digits)|] == CallText(digits);
    MatchAtIff(s, 0, digits);
  }

  // ---------------------------------------------------------------------------
  // Title classification (Replay#type)
  // ---------------------------------------------------------------------------

  datatype ReplayType = Match | Highlights | Unknown

  /**
   * `/^(Match)/` is tried before `/^(Highlights)/`; Ruby's `^` matches at the
   * start of any line of the title.
   */
  function Classify(title: string): ReplayType
  {
    if LineBeginsWith(title, "Match") then Match
    else if LineBeginsWith(title, "Highlights") then Highlights
    else Unknown
  }

  lemma ClassifyIff(title: string)
    ensures Classify(title) == Match <==> BeginsSomeLine(title, "Match")
    ensures Classify(title) == Highlights <==>
              !BeginsSomeLine(title, "Match") && BeginsSomeLine(title, "Highlights")
    ensures Classify(title) == Unknown <==>
              !BeginsSomeLine(title, "Match") && !BeginsSomeLine(title, "Highlights")
  {
    LineBeginsWithIff(title, "Match");
    LineBeginsWithIff(title, "Highlights");
  }

  /** On a one-line title the classification is by the start of the string. */
  lemma ClassifySingleLine(title: string)
    requires '\n' !in title
    ensures Classify(title) == Match <==> IsPrefix("Match", title)
    ensures Classify(title) == Highlights <==> IsPrefix("Highlights", title)
  {
    ClassifyIff(title);
    assert title[0..] == title;
    assert IsPrefix("Match", title) ==> title[0] == 'M';
    assert IsPrefix("Highlights", title) ==> title[0] == 'H';
    forall i | 0 < i <= |title| ensures !AtLineStart(title, i) {
      assert title[i - 1] != '\n';
    }
  }

  /** A later line that starts with `Match` makes the whole title a match. */
  lemma ClassifyLaterLine(first: string, rest: string)
    ensures Classify(first + "\n" + "Match" + rest) == Match
  {
    var title := first + "\n" + "Match" + rest;
    var i := |first| + 1;
    assert title[i - 1] == '\n';
    assert title[i..][..5] == "Match";
    assert AtLineStart(title, i) && IsPrefix("Match", title[i..]);
    ClassifyIff(title);
  }

  // ---------------------------------------------------------------------------
  // Video files (Replay#video_files)
  // ---------------------------------------------------------------------------

  /** The `formats` default, `%w(.flv .m4v)`. */
  const DefaultFormats: seq<string> := [".flv", ".m4v"]

  /** The `quality` argument: `nil`, `:iphone`, `:high`, `:low` or any other symbol. */
  datatype Quality = Unspecified | IPhone | High | Low | Other(symbol: string)

  /** The path marker a quality selects, if it selects one. */
  function Marker(quality: Quality): Option<string>
  {
    match quality
    case IPhone => Some("/iphone/")
    case High => Some("/hi/")
    case Low => Some("/lo/")
    case _ => None
  }

  function HasFormat(formats: seq<string>): string -> bool
  {
    f => ExtName(f) in formats
  }

  function HasMarker(marker: string): string -> bool
  {
    f => Contains(f, marker)
  }

  /** The single test that the two selections of `video_files` amount to. */
  function Accepts(quality: Quality, formats: seq<string>): string -> bool
  {
    match Marker(quality)
    case None => HasFormat(formats)
    case Some(m) => Both(HasFormat(formats), HasMarker(m))
  }

  /** When `video_files` returns path `f`: its extension is listed and it carries the requested marker. */
  ghost predicate Wanted(quality: Quality, formats: seq<string>, f: string)
  {
    ExtName(f) in formats && (Marker(quality).Some? ==> OccursIn(Marker(quality).value, f))
  }

  /** The two `select` passes of `video_files` over a path list. */
  function FilterVideoFiles(paths: seq<string>, quality: Quality, formats: seq<string>): seq<string>
  {
    var kept := Filter(paths, HasFormat(formats));
    match Marker(quality)
    case Some(marker) => Filter(kept, HasMarker(marker))
    case None => kept
  }

  lemma VideoFilesIsOneSelection(paths: seq<string>, quality: Quality, formats: seq<string>)
    ensures FilterVideoFiles(paths, quality, formats) == Filter(paths, Accepts(quality, formats))
  {
    match Marker(quality)
    case None =>
    case Some(m) => FilterFilter(paths, HasFormat(formats), HasMarker(m));
  }

  lemma AcceptsIff(quality: Quality, formats: seq<string>, f: string)
    ensures Accepts(quality, formats)(f) <==> Wanted(quality, formats, f)
  {
    match Marker(quality)
    case None =>
    case Some(m) => ContainsIffOccurs(f, m);
  }

  /** Every returned path has one of the accepted extensions. */
  lemma VideoFilesExtensions(paths: seq<string>, quality: Quality, formats: seq<string>)
    ensures forall f :: f in FilterVideoFiles(paths, quality, formats) ==> ExtName(f) in formats
  {
    VideoFilesIsOneSelection(paths, quality, formats);
    forall f | f in FilterVideoFiles(paths, quality, formats) ensures ExtName(f) in formats {
      FilterMembership(paths, Accepts(quality, formats), f);
    }
  }

  /** With the default formats every returned path ends in `.flv` or `.m4v`. */
  lemma VideoFilesDefaultExtensions(paths: seq<string>, quality: Quality)
    ensures forall f :: f in FilterVideoFiles(paths, quality, DefaultFormats) ==>
              ExtName(f) == ".flv" || ExtName(f) == ".m4v"
  {
    VideoFilesExtensions(paths, quality, DefaultFormats);
  }

  /** Completeness: a path is returned exactly when it is in the list and wanted. */
  lemma VideoFilesMembership(paths: seq<string>, quality: Quality, formats: seq<string>, f: string)
    ensures f in FilterVideoFiles(paths, quality, formats) <==> f in paths && Wanted(quality, formats, f)
  {
    VideoFilesIsOneSelection(paths, quality, formats);
    AcceptsIff(quality, formats, f);
    FilterMembership(paths, Accepts(quality, formats), f);
  }

  /** Each wanted path is returned as often as it is listed, and no other path at all. */
  lemma VideoFilesCount(paths: seq<string>, quality: Quality, formats: seq<string>, f: string)
    ensures multiset(FilterVideoFiles(paths, quality, formats))[f] ==
              if Wanted(quality, formats, f) then multiset(paths)[f] else 0
  {
    VideoFilesIsOneSelection(paths, quality, formats);
    AcceptsIff(quality, formats, f);
    FilterCount(paths, Accepts(quality, formats), f);
  }

  /** The result is the path list with some entries deleted: nothing added, reordered or rewritten. */
  lemma VideoFilesSubsequence(paths: seq<string>, quality: Quality, formats: seq<string>)
    ensures IsSubseq(FilterVideoFiles(paths, quality, formats), paths)
  {
    VideoFilesIsOneSelection(paths, quality, formats);
    FilterIsSubseq(paths, Accepts(quality, formats));
  }

  /** `nil` or an unrecognised quality leaves the extension-filtered list as it is. */
  lemma VideoFilesWithoutMarker(paths: seq<string>, quality: Quality, formats: seq<string>)
    requires Marker(quality).None?
    ensures FilterVideoFiles(paths, quality, formats) == FilterVideoFiles(paths, Unspecified, formats)
    ensures forall f :: f in FilterVideoFiles(paths, quality, formats) <==> f in paths && ExtName(f) in formats
  {
    forall f {
      VideoFilesMembership(paths, quality, formats, f);
    }
  }

  /** Filtering the result again with the same quality and formats changes nothing. */
  lemma VideoFilesIdempotent(paths: seq<string>, quality: Quality, formats: seq<string>)
    ensures FilterVideoFiles(FilterVideoFiles(paths, quality, formats), quality, formats) ==
            FilterVideoFiles(paths, quality, formats)
  {
    var r := FilterVideoFiles(paths, quality, formats);
    VideoFilesIsOneSelection(paths, quality, formats);
    VideoFilesIsOneSelection(r, quality, formats);
    forall i | 0 <= i < |r| ensures Accepts(quality, formats)(r[i]) {
      FilterMembership(paths, Accepts(quality, formats), r[i]);
    }
    FilterAllPass(r, Accepts(quality, formats));
  }

  // ---------------------------------------------------------------------------
  // Listing entries and replays (Replay#initialize, Client)
  // ---------------------------------------------------------------------------

  /**
   * What the CSS queries of one `.videoItem` element yield: the `onclick`
   * attribute of its first `.img > a` (if any), the stripped text of its `h2`
   * headings, and the `src` attribute of its first `.img img` (if any).
   */
  datatype VideoItem = VideoItem(onclick: Option<string>, heading: string, imageSrc: Option<string>)

  datatype ReplayRecord = ReplayRecord(id: string, title: string, image: string)

  /**
   * The fields `initialize` reads from a listing entry. `None` stands for the
   * exception it raises when the anchor or image is missing or the handler
   * holds no `playVideo(<digits>)` call.
   */
  function ParseItem(item: VideoItem): (r: Option<ReplayRecord>)
    ensures r.Some? <==> item.onclick.Some? && ExtractId(item.onclick.value).Some? && item.imageSrc.Some?
    ensures r.Some? ==>
              r.value.id == ExtractId(item.onclick.value).value && IsReplayId(r.value.id) &&
              r.value.title == item.heading && r.value.image == item.imageSrc.value
  {
    match item.onclick
    case None => None
    case Some(onclick) =>
      match ExtractId(onclick)
      case None => None
      case Some(id) =>
        match item.imageSrc
        case None => None
        case Some(src) => Some(ReplayRecord(id, item.heading, src))
  }

  /**
   * The records of all listing entries in document order, or `None` if
   * reading any entry fails (the exception ends `Client.replays`).
   */
  function ParseListing(listing: seq<VideoItem>): (r: Option<seq<ReplayRecord>>)
    ensures r.Some? ==> |r.value| == |listing|
    ensures r.Some? ==> forall i :: 0 <= i < |r.value| ==> IsReplayId(r.value[i].id)
    decreases |listing|
  {
    if listing == [] then Some([])
    else
      match ParseItem(listing[0])
      case None => None
      case Some(first) =>
        match ParseListing(listing[1..])
        case None => None
        case Some(rest) => Some([first] + rest)
  }

  /** The listing fails to read exactly when some entry does (and then `Replay.new` raises). */
  lemma {:induction false} ParseListingFails(listing: seq<VideoItem>)
    ensures ParseListing(listing).None? <==> exists i :: 0 <= i < |listing| && ParseItem(listing[i]).None?
    decreases |listing|
  {
    if listing != [] {
      var rest := listing[1..];
      ParseListingFails(rest);
      assert forall i :: 1 <= i < |listing| ==> listing[i] == rest[i - 1];
      if ParseItem(listing[0]).Some? && ParseListing(rest).None? {
        var i :| 0 <= i < |rest| && ParseItem(rest[i]).None?;
        assert ParseItem(listing[i + 1]).None?;
      }
    }
  }

  /** Record `i` of a read listing is what entry `i` reads to: one replay per entry, in document order. */
  lemma {:induction false} ParseListingRecords(listing: seq<VideoItem>)
    requires ParseListing(listing).Some?
    ensures forall i :: 0 <= i < |listing| ==>
      ParseItem(listing[i]).Some? && ParseListing(listing).value[i] == ParseItem(listing[i]).value
    decreases |listing|
  {
    if listing != [] {
      var rest := listing[1..];
      var first := ParseItem(listing[0]);
      assert first.Some? && ParseListing(rest).Some?;
      assert ParseListing(listing).value == [first.value] + ParseListing(rest).value;
      ParseListingRecords(rest);
      forall i | 1 <= i < |listing|
        ensures ParseItem(listing[i]).Some? && ParseListing(listing).value[i] == ParseItem(listing[i]).value
      {
        assert listing[i] == rest[i - 1];
      }
    }
  }

  /** What `video_files(quality)` yields, with the default formats, for a freshly made replay of a record. */
  function FilesOf(quality: Quality, manifest: string -> seq<string>): ReplayRecord -> seq<string>
  {
    (rec: ReplayRecord) => FilterVideoFiles(manifest(ManifestUriFor(rec.id)), quality, DefaultFormats)
  }

  lemma FilesOfFetched(rec: ReplayRecord, quality: Quality, manifest: string -> seq<string>,
                        paths: seq<string>, files: seq<string>)
    requires paths == manifest(ManifestUriFor(rec.id))
    requires files == FilterVideoFiles(paths, quality, DefaultFormats)
    ensures files == FilesOf(quality, manifest)(rec)
  {
  }

  class Replay {
    var id: string
    var title: string
    var image: string
    /** `@video_files`: the manifest's path list, once fetched. */
    var videoFilesCache: Option<seq<string>>
    /** The manifest URIs this replay has requested, oldest first. */
    ghost var manifestRequests: seq<string>

    /** The clip id is digits, and the cache is filled by exactly one request, for this replay's manifest. */
    ghost predicate Valid()
      reads this
    {
      IsReplayId(id) &&
      (videoFilesCache.None? ==> manifestRequests == []) &&
      (videoFilesCache.Some? ==> manifestRequests == [ManifestUriFor(id)])
    }

    /** A replay of clip `clip` that has not fetched its manifest yet. */
    ghost predicate Untouched(clip: string)
      reads this
    {
      id == clip && IsReplayId(id) && videoFilesCache.None? && manifestRequests == []
    }

    function Record(): ReplayRecord
      reads this
    {
      ReplayRecord(id, title, image)
    }

    /** `type`. */
    function Type(): ReplayType
      reads this
    {
      Classify(title)
    }

    /** `manifest_uri`. */
    function ManifestUri(): string
      reads this
    {
      ManifestUriFor(id)
    }

    /** `initialize`, given the fields `ParseItem` reads from the entry; the cache starts empty. */
    constructor (rec: ReplayRecord)
      requires IsReplayId(rec.id)
      ensures Valid()
      ensures Record() == rec
      ensures videoFilesCache == None
    {
      id := rec.id;
      title := rec.title;
      image := rec.image;
      videoFilesCache := None;
      manifestRequests := [];
    }

    /**
     * `video_files(quality, formats)`. `manifest` is what the manifest server
     * answers for a URI (the paths of its file nodes); it is consulted only
     * when the cache is empty, and the cached list is used from then on.
     */
    method VideoFiles(quality: Quality, formats: seq<string>, manifest: string -> seq<string>)
      returns (files: seq<string>)
      requires Valid()
      modifies this`videoFilesCache, this`manifestRequests
      ensures Valid()
      ensures old(videoFilesCache).Some? ==>
                videoFilesCache == old(videoFilesCache) && manifestRequests == old(manifestRequests)
      ensures old(videoFilesCache).None? ==>
                videoFilesCache == Some(manifest(ManifestUri())) && manifestRequests == [ManifestUri()]
      ensures files == FilterVideoFiles(videoFilesCache.value, quality, formats)
    {
      if videoFilesCache.None? {
        var uri := ManifestUri();
        videoFilesCache := Some(manifest(uri));
        manifestRequests := manifestRequests + [uri];
      }
      files := FilterVideoFiles(videoFilesCache.value, quality, formats);
    }
  }

  class Client {

    /** `Client.replays`: one new replay per listing entry, in document order. */
    static method Replays(listing: seq<VideoItem>) returns (replays: Option<seq<Replay>>)
      ensures replays.None? <==> ParseListing(listing).None?
      ensures replays.Some? ==>
                |replays.value| == |listing| &&
                forall i :: 0 <= i < |listing| ==>
                  fresh(replays.value[i]) && replays.value[i].Valid() &&
                  replays.value[i].Record() == ParseListing(listing).value[i] &&
                  replays.value[i].videoFilesCache.None?
      ensures replays.Some? ==>
                forall i, j :: 0 <= i < j < |listing| ==> replays.value[i] != replays.value[j]
    {
      var parsed := ParseListing(listing);
      if parsed.None? {
        return None;
      }
      var made := NewReplays(parsed.value);
      return Some(made);
    }

    /** One new, unfetched replay per record, in the order given, as `Replay.new` builds them. */
    static method NewReplays(recs: seq<ReplayRecord>) returns (made: seq<Replay>)
      requires forall j :: 0 <= j < |recs| ==> IsReplayId(recs[j].id)
      ensures |made| == |recs|
      ensures forall j :: 0 <= j < |recs| ==>
                fresh(made[j]) && made[j].Valid() && made[j].Record() == recs[j] &&
                made[j].videoFilesCache.None?
      ensures forall j, k :: 0 <= j < k < |recs| ==> made[j] != made[k]
    {
      made := [];
      var i := 0;
      while i < |recs|
        invariant 0 <= i <= |recs| && |made| == i
        invariant forall j :: 0 <= j < i ==>
                    fresh(made[j]) && made[j].Valid() && made[j].Record() == recs[j] &&
                    made[j].videoFilesCache.None?
        invariant forall j, k :: 0 <= j < k < i ==> made[j] != made[k]
      {
        var replay := new Replay(recs[i]);
        made := made + [replay];
        i := i + 1;
      }
    }

    /**
     * `Client.replay_video_files(quality)`: for each listed replay, in order,
     * its video files with the default formats, each from its own manifest.
     */
    static method ReplayVideoFiles(listing: seq<VideoItem>, quality: Quality, manifest: string -> seq<string>)
      returns (files: Option<seq<seq<string>>>)
      ensures files.None? <==> ParseListing(listing).None?
      ensures files.Some? ==> files.value == Map(ParseListing(listing).value, FilesOf(quality, manifest))
    {
      var made := Replays(listing);
      if made.None? {
        return None;
      }
      ghost var recs := ParseListing(listing).value;
      var lists := VideoFilesOfEach(made.value, recs, quality, manifest);
      return Some(lists);
    }

    /**
     * `replays.map { |r| r.video_files(quality) }` over replays that have not
     * fetched their manifests yet: afterwards each has fetched its own manifest once.
     */
    static method VideoFilesOfEach(replays: seq<Replay>, ghost recs: seq<ReplayRecord>, quality: Quality,
                                   manifest: string -> seq<string>)
      returns (lists: seq<seq<string>>)
      requires |replays| == |recs|
      requires forall j, k :: 0 <= j < k < |replays| ==> replays[j] != replays[k]
      requires forall j :: 0 <= j < |replays| ==> replays[j].Untouched(recs[j].id)
      modifies replays`videoFilesCache, replays`manifestRequests
      ensures forall j :: 0 <= j < |replays| ==>
                replays[j].id == recs[j].id && IsReplayId(replays[j].id) &&
                replays[j].videoFilesCache == Some(manifest(ManifestUriFor(recs[j].id))) &&
                replays[j].manifestRequests == [ManifestUriFor(recs[j].id)]
      ensures lists == Map(recs, FilesOf(quality, manifest))
    {
      lists := [];
      var i := 0;
      while i < |replays|
        invariant 0 <= i <= |replays|
        invariant forall j :: 0 <= j < i ==>
                    replays[j].id == recs[j].id && IsReplayId(replays[j].id) &&
                    replays[j].videoFilesCache == Some(manifest(ManifestUriFor(recs[j].id))) &&
                    replays[j].manifestRequests == [ManifestUriFor(recs[j].id)]
        invariant forall j :: i <= j < |replays| ==>
                    replays[j].id == recs[j].id && IsReplayId(replays[j].id) &&
                    replays[j].videoFilesCache.None? && replays[j].manifestRequests == []
        invariant |lists| == i
        invariant forall j :: 0 <= j < i ==>
                    lists[j] == FilterVideoFiles(manifest(ManifestUriFor(recs[j].id)), quality, DefaultFormats)
      {
        var f := replays[i].VideoFiles(quality, DefaultFormats, manifest);
        lists := lists + [f];
        i := i + 1;
      }
      forall j | 0 <= j < |recs| ensures lists[j] == FilesOf(quality, manifest)(recs[j]) {
        FilesOfFetched(recs[j], quality, manifest, manifest(ManifestUriFor(recs[j].id)), lists[j]);
      }
      MapOfEntrywise(recs, FilesOf(quality, manifest), lists);
    }
  }
}
