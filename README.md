# Premiership Rugby replay scraper, modelled in Dafny

`premiershiprugby.rb` scrapes the Premiership Rugby video site. `PremiershipRugby::Client.replays` reads the site's front page.
- It turns every `.videoItem` element into a `PremiershipRugby::Replay`.
- Each replay has a numeric clip id (taken from a `playVideo(<digits>)` call in its link's `onclick` handler), a title and an image.

A replay offers three things:
- `type` classifies its title as a match, a highlights package or unknown.
- `manifest_uri` builds the query URI of its XML video manifest.
- `video_files(quality, formats)` fetches that manifest once and keeps its file paths in `@video_files`. It returns the paths whose extension is in `formats` (default `.flv`, `.m4v`). For `:iphone`, `:high` and `:low` it also requires the path marker `/iphone/`, `/hi/` or `/lo/`.

`Client.replay_video_files(quality)` maps `video_files(quality)` over all replays.

The six modules:
- `PremiershipRugby` (`premiership_rugby.dfy`) models that logic. `Replay` is a class whose `videoFilesCache` field is the `@video_files` memo, assigned at most once. The ghost field `manifestRequests` records the manifest URIs the replay has requested. The pure parts are functions with lemmas:
  - the `select` chain;
  - `type`;
  - `manifest_uri`;
  - the id capture;
  - the listing map.
- `Seqs` holds generic `Filter` (Ruby's `select`), `Map` (Ruby's `map`) and `FirstSome`, with their lemmas.
- `Strings` holds substring, line-start and digit-run tests and the decimal rendering of numbers.
- `Paths` holds `File.extname`.
- `Forms` holds the part of `URI.encode_www_form` the code uses, with a decoder partner that reads the query back.
- `Wrappers` holds `Option`.

Modelling choices:
- **HTTP and parsing are inputs.**
  - A listing entry is the `VideoItem` of strings its CSS queries yield.
  - The front page is a sequence of entries in document order.
  - The manifest server is a function `manifest` from a URI to the `externalPath` values of its `//videofiles//file` nodes.
- **`^` is Ruby's line anchor.** In `/^(Match)/` and `/^(Highlights)/` the `^` matches at the start of the title or just after any newline in it. The model does the same (`Strings.LineBeginsWith`), so a second line starting with `Match` makes a match.
- **The failed constructor is `None`.** Where `initialize` raises, because the anchor or image is missing or there is no `playVideo(<digits>)` call, `ParseItem` yields `None`. `Client.Replays` and `Client.ReplayVideoFiles` then return `None`, standing for the exception that aborts the whole listing.
- **Only what `premiershiprugby.rb` does.** The script has no `match` quality that bypasses the filter, no whitespace trimming of manifest paths, no listing limit or search and no dates, so the model has none either. Any quality other than `:iphone`, `:high` and `:low` (including `nil`) returns the extension-filtered list.

## Model

| member | source | states |
|---|---|---|
| PremiershipRugby.ManifestUriFor | premiershiprugby.rb:89-97 | `manifest_uri` for a clip id: the path, `?` and the form-encoded parameters; its text is stated by `ManifestUriText`, its decoding by `ManifestUriQuery` and its injectivity by `ManifestUriInjective` |
| PremiershipRugby.SiteIdDecimal | premiershiprugby.rb:21 | `SITE_ID` 13118 renders as the text `13118` |
| PremiershipRugby.ManifestParamsDecimal | premiershiprugby.rb:90-95 | the query parameters are, in hash order, `videoType`=`5`, `type`=`18`, `sites`=`13118`, `clipId`=id |
| PremiershipRugby.EncodeManifestParams | premiershiprugby.rb:90-95 | form-encoding those four pairs gives `videoType=5&type=18&sites=13118&clipId=` followed by the id |
| PremiershipRugby.ManifestPathText | premiershiprugby.rb:96 | the path is `/page/sva/xmlHttpRequest/0,,13118,00.xml` |
| PremiershipRugby.ManifestUriText | premiershiprugby.rb:89-97 | `manifest_uri` is exactly the path, `?`, and then the four parameters in their fixed order ending in the clip id |
| PremiershipRugby.ManifestUriQuery | premiershiprugby.rb:89-97 | for any unreserved id, splitting the URI at its first `?` gives back the path, and the query decodes to the four pairs in order |
| PremiershipRugby.ManifestUriInjective | premiershiprugby.rb:89-97 | distinct clip ids give distinct manifest URIs |
| PremiershipRugby.MatchAt | premiershiprugby.rb:50 | a capture found at an offset is a non-empty digit string |
| PremiershipRugby.MatchAtIff | premiershiprugby.rb:50 | the attempt at offset i captures d exactly when `playVideo(` d `)` with d non-empty digits starts at i |
| PremiershipRugby.ExtractId | premiershiprugby.rb:48-50 | a found id is a non-empty string of decimal digits |
| PremiershipRugby.ExtractIdIsFirstCall | premiershiprugby.rb:48-50 | no id exactly when the handler contains no `playVideo(<digits>)`; otherwise the id is the capture of an occurrence with none further left |
| PremiershipRugby.ExtractIdOfLeadingCall | premiershiprugby.rb:50 | a handler that starts with `playVideo(d)` yields d, whatever follows |
| PremiershipRugby.Classify | premiershiprugby.rb:55-65 | `type`: `:match`, `:highlights` or `:unknown` from the title; its meaning is stated against the independent line predicate by `ClassifyIff` |
| PremiershipRugby.ClassifyIff | premiershiprugby.rb:55-65 | `:match` iff some line starts with `Match`; `:highlights` iff none does and some line starts with `Highlights`; `:unknown` iff neither; the three are exclusive and exhaustive |
| PremiershipRugby.ClassifySingleLine | premiershiprugby.rb:57-64 | on a title without newlines: `:match` iff it starts with `Match`, `:highlights` iff it starts with `Highlights` |
| PremiershipRugby.ClassifyLaterLine | premiershiprugby.rb:58 | a later line starting with `Match` makes the title a match, whatever the first line says |
| PremiershipRugby.FilterVideoFiles | premiershiprugby.rb:69-80 | the extension pass and the quality pass of `video_files` over the cached path list; its meaning is stated by `VideoFilesMembership`, `VideoFilesCount` and `VideoFilesSubsequence` |
| PremiershipRugby.VideoFilesIsOneSelection | premiershiprugby.rb:69-80 | the two `select` passes equal one selection by the combined test |
| PremiershipRugby.AcceptsIff | premiershiprugby.rb:69-80 | the combined test holds iff the extension is in `formats` and the path contains the quality's marker, if it has one |
| PremiershipRugby.VideoFilesExtensions | premiershiprugby.rb:67-69 | every returned path has an extension in `formats` |
| PremiershipRugby.VideoFilesDefaultExtensions | premiershiprugby.rb:67-69 | with the default formats every returned path's extension is `.flv` or `.m4v` |
| PremiershipRugby.VideoFilesMembership | premiershiprugby.rb:69-77 | completeness per quality: a path is returned iff it is in the raw list, its extension is in `formats`, and it contains `/iphone/`, `/hi/` or `/lo/` as the quality asks |
| PremiershipRugby.VideoFilesCount | premiershiprugby.rb:69-80 | every wanted path is returned as many times as it is listed; unwanted paths never are |
| PremiershipRugby.VideoFilesSubsequence | premiershiprugby.rb:68-80 | the result is an order-preserving subsequence of the raw list |
| PremiershipRugby.VideoFilesWithoutMarker | premiershiprugby.rb:78-79 | `nil` or any other quality gives the same list as `nil`, namely the raw paths whose extension is in `formats` |
| PremiershipRugby.VideoFilesIdempotent | premiershiprugby.rb:69-80 | filtering the result again with the same quality and formats returns it unchanged |
| PremiershipRugby.ParseItem | premiershiprugby.rb:47-53 | an entry reads iff it has an `onclick` holding a `playVideo(<digits>)` call and an image `src`; then id is the capture `ExtractId` finds in the handler, title the heading text, image the `src` |
| PremiershipRugby.ParseListing | premiershiprugby.rb:29-31 | a read listing has one record per entry, each with a digit clip id |
| PremiershipRugby.ParseListingFails | premiershiprugby.rb:29-31 | reading the listing fails exactly when some entry does not read (no `playVideo(<digits>)` call in its handler, or no image `src`) |
| PremiershipRugby.ParseListingRecords | premiershiprugby.rb:29-31 | in a listing that reads, every entry reads and record i is the record of entry i, in document order |
| PremiershipRugby.Replay.Type | premiershiprugby.rb:55-65 | a replay's type is the classification of its title, as `ClassifyIff` states it |
| PremiershipRugby.Replay.ManifestUri | premiershiprugby.rb:89-97 | a replay's manifest URI is the one for its own clip id, as `ManifestUriText` and `ManifestUriQuery` state it |
| PremiershipRugby.Replay.constructor | premiershiprugby.rb:47-53 | the new replay holds the record's id, title and image, has an empty cache and has made no manifest request |
| PremiershipRugby.Replay.VideoFiles | premiershiprugby.rb:67-81 | an empty cache is filled by one request for this replay's `manifest_uri`; a filled cache, and the request log, stay unchanged; the result is the filter of the cached list |
| PremiershipRugby.Client.Replays | premiershiprugby.rb:29-31 | `None` iff the listing does not read; otherwise one new, distinct, unfetched replay per entry, in document order, replay i holding record i |
| PremiershipRugby.Client.NewReplays | premiershiprugby.rb:29-31 | `Replay.new` for each record in order: new, pairwise distinct replays, replay i holding record i with an empty cache |
| PremiershipRugby.Client.VideoFilesOfEach | premiershiprugby.rb:35 | afterwards replay i has fetched its own manifest exactly once, and the result is the map of the per-replay files over the records |
| PremiershipRugby.Client.ReplayVideoFiles | premiershiprugby.rb:34-36 | `None` iff the listing does not read; otherwise the map over the records of the filtered files of each record's own manifest, one list per entry in order |
| Seqs.Filter | premiershiprugby.rb:69 | a selection is never longer than its input |
| Seqs.FilterMembership | premiershiprugby.rb:69 | an element is selected iff it is in the input and passes the test |
| Seqs.FilterIsSubseq | premiershiprugby.rb:69 | a selection is obtained from its input by deleting elements |
| Seqs.FilterCount | premiershiprugby.rb:69 | a selection keeps every occurrence of an element that passes and none of one that does not |
| Seqs.FilterAllPass | premiershiprugby.rb:69 | selecting from a list whose elements all pass returns the list |
| Seqs.FilterFilter | premiershiprugby.rb:69-77 | two selections in a row are one selection by the conjunction of the tests |
| Seqs.Map | premiershiprugby.rb:35 | a map has as many entries as its input |
| Seqs.MapEntrywise | premiershiprugby.rb:35 | entry i of a map is the function applied to input i |
| Seqs.FirstSome | premiershiprugby.rb:50 | a present result is one of the entries |
| Seqs.FirstSomeIsLeftmost | premiershiprugby.rb:50 | absent iff all entries are absent; otherwise it is an entry with only absent entries before it |
| Strings.Contains | premiershiprugby.rb:73-77 | the substring test `f[/marker/]`; its meaning is stated by `ContainsIffOccurs` |
| Strings.ContainsIffOccurs | premiershiprugby.rb:73-77 | the substring test `f[/marker/]` holds iff the marker occurs at some offset of the path |
| Strings.ScanLinesIff | premiershiprugby.rb:58-60 | the line scan finds the word iff it starts the text (when at a line start) or follows a newline inside it |
| Strings.LineBeginsWith | premiershiprugby.rb:58-60 | Ruby's `^word` test on a title; its meaning is stated by `LineBeginsWithIff` |
| Strings.LineBeginsWithIff | premiershiprugby.rb:58-60 | `^word` matches iff the word starts the text or follows a newline that is not the last character |
| Strings.DigitRun | premiershiprugby.rb:50 | the greedy `\d+` run is a digit prefix followed by a non-digit or the end |
| Strings.DigitRunUnique | premiershiprugby.rb:50 | any digit prefix followed by a non-digit or the end is that run |
| Strings.NatToString | premiershiprugby.rb:91-93 | an integer parameter renders as non-empty digits without a leading zero |
| Strings.ParseNatToString | premiershiprugby.rb:91-93 | reading the rendered digits back gives the number |
| Paths.ExtName | premiershiprugby.rb:69 | `File.extname` on a manifest path; its meaning is stated by `ExtNameShape`, `ExtNameOfFile`, `ExtNameOfDotfile` and `ExtNameWithoutDot` |
| Paths.BasenameShape | premiershiprugby.rb:69 | the last segment is the slash-free tail of the path that follows its last slash |
| Paths.DropLeadingDotsShape | premiershiprugby.rb:69 | dropping the leading dots removes a prefix made only of dots and leaves a tail that does not start with a dot |
| Paths.FromLastDotShape | premiershiprugby.rb:69 | the tail from the last dot is empty iff there is no dot; otherwise it is one dot followed by dot-free text |
| Paths.ExtNameShape | premiershiprugby.rb:69 | `File.extname` is a slash-free tail of the path, either empty or one dot followed by dot-free text |
| Paths.BasenameOfSegment | premiershiprugby.rb:69 | the last segment of a directory followed by a slash-free name is that name |
| Paths.ExtNameOfFile | premiershiprugby.rb:69 | the extension of `dir/stem.ext` is `.ext` when the stem does not start with a dot |
| Paths.ExtNameOfDotfile | premiershiprugby.rb:69 | a last segment that is one leading dot and then dot-free text (a dotfile such as `.profile`) has no extension: the leading dot does not count |
| Paths.ExtNameWithoutDot | premiershiprugby.rb:69 | a last segment without a dot has no extension |
| Forms.EncodeForm | premiershiprugby.rb:90-95 | `URI.encode_www_form`: `k=v` pairs joined by `&` in order; its partner is the decoder of `DecodeEncodeForm` |
| Forms.DecodeEncodeForm | premiershiprugby.rb:90-95 | the encoded query decodes to the same pairs in the same order when keys and values are unreserved |

## Left out

- HTTP: `Client.replays` reading `/` and `Replay#manifest` fetching the manifest (lines 30 and 85-87) are network I/O. The page is an input sequence and the server is the `manifest` parameter, modelled as a function so a URI always yields the same list.
- The HTTParty parser subclass, `BASE_URI`, `base_uri`, `include ::HTTParty` and `Bundler.require` (lines 3-17, 20, 24-27 and 40-43) are library configuration.
- The Nokogiri CSS and XPath queries and `text`/`strip` (lines 48-52 and 68) are foreign calls. Their results arrive as the fields of `VideoItem` and as the manifest's path list, with the heading already stripped.
- Line 56 (`title =~ /(\w+):.*/`) discards its result and has no effect on the classification, so it is not modelled.
- The `attr_accessor` setters for `id`, `title` and `image` (line 45) are not used by the scraping logic and are not modelled. `Replay` fields are assigned only by the constructor.
- Forms.DecodeEncodeForm: `URI.encode_www_form` is stated only for keys and values made of `*-.0-9A-Z_a-z`. Those are the only characters the code passes it: digit ids and fixed names. Percent-encoding of other characters is not modelled. `ManifestUriQuery` requires an unreserved id, which every extracted id is.
- Paths.ExtNameShape: `File.extname` is simplified to the part from the last dot of the last `/`-segment, with leading dots of the segment not counting.
  - A trailing dot gives `.`, as on current Ruby for non-Windows platforms.
  - A path ending in `/` has no extension here, whereas Ruby strips trailing slashes first.
  - Windows separators are not modelled.
- PremiershipRugby.Replay.constructor: it takes the record `ParseItem` reads from the entry and requires a digit id. The exception `initialize` raises on a malformed entry is modelled one level up, as `None` from `ParseListing` and `Client.Replays`. A replay is never built from such an entry.
- PremiershipRugby.Client.VideoFilesOfEach: it requires replays that are distinct and have not fetched yet, which is what `Client.Replays` returns. Calling `video_files` a second time on a replay is covered by `Replay.VideoFiles`, not by this method.
- Ruby's object identity, exceptions as control flow, and symbols other than the three qualities are reduced to `Option` results and the `Quality.Other` case.
