# YouTube downloader service: pure core in Dafny

The service has three HTTP endpoints: `/info`, `/streams` and `/download`.
Behind them sit a few pure helpers, and this project models those helpers and
proves properties of them:

- **Size formatting** (`format_bytes`, module `Sizes`). A byte count, or its
  absence, becomes `"N/A"`, `"0 B"`, or an amount plus one unit from B to YB.
  The unit is the one reached by dividing by 1024 while the amount is at least
  1024 and a larger unit exists.
- **Stream ranking** (`sort_key` and `sorted`, module `Ranking`). Every media
  variant gets a 4-tuple key with four parts:
  - a progressive priority;
  - a type priority;
  - a negated resolution;
  - a negated bitrate.

  The list is then sorted stably by that key. The resolution and bitrate are
  read from texts such as `"720p"` and `"128kbps"`, with `int()` semantics
  (module `Numerals`). Each variant is a `StreamRecord` (module `Streams`);
  an attribute that may be missing is an `Option`.
- **The download decision** (module `Download`). It has four steps:
  - reject a request without `url` or `itag`;
  - find the first variant whose itag, rendered as text, equals the requested
    one;
  - pick the file extension from the variant's MIME type;
  - build the attachment name `<safe title>_<itag>.<ext>`.

  The safe title keeps only alphanumerics and `" ._-"`. It then runs
  `strip()`, a cut to 100 characters, `strip()` again, and `rstrip(' .')`.
  Module `Strings` models Python's `in`, `endswith`, `strip` and `rstrip`.

Python's stable `sorted` is modelled as an insertion sort (`Ranking.Rank`).
This insertion sort is shown to be *the* stable sort by key: a sequence is
ordered by key and keeps each key's records in input order exactly when it
equals `Rank`.

Absent values follow one convention throughout. A missing attribute or a
`None` is `Options.None`, and a missing query parameter is the empty text.

## Model

| member | source | states |
|---|---|---|
| Sizes.FormatBytes | api_downloader.py:23-34 | `None` gives "N/A" and only `None` does; 0 gives "0 B" and only 0 does. Any other size gives an amount and a unit index of at most 8. The amount is the size divided by 1024 to the power of that index, the size reaches 1024^unit when the unit is above B, and it stays below 1024^(unit+1) when the unit is below YB |
| Sizes.ScaleDown | api_downloader.py:30-33 | The division loop stops at a unit between its start and 8. Unless it reached the last unit, the amount there is below 1024, and every division it made left an amount of at least 1 |
| Sizes.AmountBounds | api_downloader.py:31-32 | Comparing the scaled amount with 1 or 1024 is comparing the byte count with 1024^k or 1024^(k+1) |
| Sizes.UnitIsLargestFittingPower | api_downloader.py:29-33 | For a positive size the unit is the largest power of 1024 the size reaches: the size reaches 1024^k exactly when k is at most the chosen unit |
| Sizes.SmallSizesUseBytes | api_downloader.py:27-34 | Every non-zero size below 1024, negative ones included, is shown unscaled in B |
| Sizes.FormatBytesExamples | api_downloader.py:23-34 | None gives "N/A", 0 gives "0 B", 1536 gives 1.5 KB and 1048576 gives 1.0 MB |
| Numerals.ParseInt | api_downloader.py:102-105 | `int()` accepts a text exactly when it is a digit run with an optional sign |
| Numerals.ParseIntLeadingZeroAndPlus | api_downloader.py:102-105 | `int()` reads a digit run the same with a leading zero or a '+' sign, and reads it negated after a '-' sign |
| Numerals.DecimalRoundTrip | api_downloader.py:150 | Parsing the decimal text `str` renders for any integer gives the integer back |
| Numerals.DecimalTextInjective | api_downloader.py:150 | Two integers render as the same text exactly when they are equal |
| Strings.Strip | api_downloader.py:168-170 | `strip` returns a contiguous piece of its input. Everything removed before and after the piece is in the stripped set, and the piece neither starts nor ends with such a character |
| Strings.RStrip | api_downloader.py:170 | `rstrip` returns a prefix of its input. Everything removed is in the stripped set, and the prefix does not end with such a character |
| Ranking.ParseSuffixed | api_downloader.py:99-117 | The number read from "720p" / "128kbps" is 0 when the text is absent, lacks the suffix, or has a prefix `int()` rejects |
| Ranking.ParseSuffixedRoundTrip | api_downloader.py:99-117 | The decimal text of any integer followed by the suffix is read back as that integer |
| Ranking.KeyParts | api_downloader.py:94-128 | The key's first part is 0 exactly for progressive variants, and its second part is 0 exactly for type "video". Video-only variants are keyed on the negated resolution with bitrate 0, and audio-only ones on the negated bitrate with resolution 0. All others use both |
| Ranking.UnusedComponentsTie | api_downloader.py:124-127 | Two video-only variants have equal keys exactly when their resolutions agree; two audio-only variants, exactly when their bitrates agree |
| Ranking.Insert | api_downloader.py:131 | Inserting into a key-ordered list keeps it ordered and adds exactly one copy of the record. The record goes ahead of the records that share its key, and every other key's records keep their order |
| Ranking.Rank | api_downloader.py:131 | The sorted list is ordered by key and is a permutation of the input. For every key, the records with that key appear in the same order as in the input (stability) |
| Ranking.StableSortUnique | api_downloader.py:131 | Two key-ordered lists that agree, key by key, on the order of their records are equal |
| Ranking.RankIsTheStableSort | api_downloader.py:131 | A list is a stable sort of the input by key if and only if it equals `Rank` of the input |
| Ranking.ProgressiveFirst | api_downloader.py:119-131 | In the ranked list every progressive variant comes before every non-progressive one |
| Ranking.VideoBeforeOtherTypes | api_downloader.py:119-131 | Among non-progressive variants, every variant of type "video" comes before every variant of another type |
| Ranking.VideoOnlyByResolution | api_downloader.py:119-131 | Video-only variants appear by non-increasing resolution |
| Ranking.ProgressiveByResolutionThenBitrate | api_downloader.py:119-131 | Progressive variants of the same type appear by non-increasing resolution, and those of equal resolution by non-increasing bitrate |
| Ranking.AudioOnlyByBitrate | api_downloader.py:119-131 | Audio-only variants appear by non-increasing bitrate |
| RankingExamples.ResolutionExample | api_downloader.py:93-131 | Video-only 144p, 1080p and 720p rank as 1080p, 720p, 144p |
| RankingExamples.BitrateExample | api_downloader.py:93-131 | Audio-only 128, 256 and 48 kbps rank as 256, 128, 48 kbps |
| RankingExamples.ProgressiveExample | api_downloader.py:93-131 | A progressive variant listed after an audio-only one is ranked ahead of it |
| Download.Extension | api_downloader.py:160-165 | The extension is one of mp4, m4a and webm. It is m4a exactly when the MIME type contains "audio" and not "mp4". It is webm exactly when m4a does not apply and the type contains both "video" and "webm" |
| Download.ExtensionExamples | api_downloader.py:160-165 | video/mp4 gives mp4, video/webm gives webm, audio/webm gives m4a and audio/mp4 gives mp4 |
| Download.KeepAllowed | api_downloader.py:168 | The filtered title holds only alphanumerics and " ._-" |
| Download.KeepAllowedIsSubsequence | api_downloader.py:168 | The filtered title is the title with characters deleted, order preserved |
| Download.KeepAllowedCounts | api_downloader.py:168 | Filtering keeps each allowed character exactly as many times as the title holds it, and no other character |
| Download.KeepAllowedUnchanged | api_downloader.py:168 | A title made only of allowed characters passes the filter whole |
| Download.KeepAllowedConcat | api_downloader.py:168 | Filtering a concatenation is concatenating the filtered parts |
| Download.Trim | api_downloader.py:168-170 | After the strip / `[:100]` / strip / `rstrip(' .')` chain the name is at most 100 characters. When it is non-empty, it does not start with whitespace and does not end with a space or period |
| Download.SafeBase | api_downloader.py:168-170 | The safe base name holds only allowed characters, taken in order from the title. It is at most 100 characters long, and when non-empty it does not start with whitespace and does not end with a space or period |
| Download.TrimIsLongestPrefix | api_downloader.py:170 | On filtered text the result is the longest prefix of the first 100 stripped characters that does not end in a space or period. Everything cut from that prefix is a space or period |
| Download.NothingToStrip | api_downloader.py:168-170 | A name of at most 100 characters with no whitespace at either end and no space or period at the end passes the trimming unchanged |
| Download.SafeBaseIdempotent | api_downloader.py:168-170 | Sanitising a sanitised name changes nothing |
| Download.DownloadNameExtension | api_downloader.py:171 | Whatever the title and itag, the text after the last period of the attachment name is exactly the chosen extension |
| Download.DownloadNameHasNoSeparator | api_downloader.py:171 | The attachment name contains no '/' or '\\' unless the requested itag does |
| Download.ItagTextHasNoSeparator | api_downloader.py:150 | A variant's itag rendered as text contains no '/' or '\\' |
| Download.ItagTextMatchesNumber | api_downloader.py:150 | For a request written as the decimal text of n, a variant's itag text matches exactly when its itag is n |
| Download.FindByItag | api_downloader.py:148-154 | The scan returns the first index whose itag text equals the request, and returns nothing exactly when no variant matches |
| Download.PlanDownload | api_downloader.py:142-171 | A missing url or itag is rejected as a bad request, and only then. "not found" happens exactly when the request is complete and no variant matches. Otherwise the plan holds the first matching variant and the name `<safe title>_<itag>.<ext>`. A planned attachment name never contains '/' or '\\' |

## Left out

- HTTP handling is not modelled: Flask routing, JSON responses, CORS and status codes. The only exceptions are the 400 and 404 decisions `Download.PlanDownload` returns.
- The YouTube client library is out of scope: fetching the video, its title and its list of variants. The title and the variants are parameters.
- `/info` is not modelled. It only copies attributes of the fetched video into JSON.
- The download itself is not modelled: the temporary directory, `stream.download`, the newest-file fallback, `send_file` and the clean-up. All of these are filesystem I/O.
- Every exception handler that turns a failure into a 500 response is left out, because those failures come from the network or the filesystem.
- `stream_to_dict` is left out as a separate function. Its `getattr` probing is represented by the `Option` fields of `Streams.StreamRecord`, so an absent attribute and an attribute holding `None` are both `None`.
- Sizes.FormatBytes: the result is kept as `Scaled(amount, unit)`; the rendering with two decimals (`:.2f`) is not modelled.
- Sizes.FormatBytes: the amount is divided exactly as a rational rather than as a binary float, so results for sizes above 2^53 bytes, where float division rounds, may differ.
- Numerals.ParseInt: accepts only an optional sign followed by ASCII digits. Python's `int()` also accepts surrounding whitespace, underscores between digits and non-ASCII decimal digits; those inputs parse to 0 in the model.
- Download.KeepAllowed: `isalnum` is modelled on ASCII letters and digits only. Python also keeps non-ASCII letters and digits, for example 'é'.
- Download.ItagText: an itag attribute that exists but holds `None` renders as "None" in Python. The model renders every absent itag as "", so such a variant never matches a non-empty request.
- Download.PlanDownload: the stream's `mime_type` is read with default "". A `mime_type` attribute holding `None` would raise in Python; the model treats it as "".
- Ties between equal keys are not broken by itag; they are left in input order by the stable sort, as the code does. `Ranking.Rank` and `Ranking.RankIsTheStableSort` state this.
- The extension chosen for audio follows the code's tests on the MIME type. As a result, "audio/mp4" gets ".mp4" and "audio/webm" gets ".m4a". `Download.ExtensionExamples` states this; the model does not change it.
