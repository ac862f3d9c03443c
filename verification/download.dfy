/** The pure part of `/download`: finding the requested variant by itag,
    choosing the file extension from its MIME type, and building a
    filesystem-safe attachment name from the video title. */
module Download {
  import opened Options
  import opened Numerals
  import opened Strings
  import opened Streams

  /** Longest safe base name kept from the title. */
  const MaxBaseLength: nat := 100

  // ---------------------------------------------------------------------
  // Extension

  /** The extension chosen from the MIME type: "m4a" for audio that is not
      mp4, "webm" for webm video, "mp4" otherwise. */
  function Extension(mime: string): (ext: string)
    ensures ext == "mp4" || ext == "m4a" || ext == "webm"
    ensures ext == "m4a" <==> Contains(mime, "audio") && !Contains(mime, "mp4")
    ensures ext == "webm" <==>
              !(Contains(mime, "audio") && !Contains(mime, "mp4")) &&
              Contains(mime, "video") && Contains(mime, "webm")
  {
    if Contains(mime, "audio") && !Contains(mime, "mp4") then "m4a"
    else if Contains(mime, "video") && Contains(mime, "webm") then "webm"
    else "mp4"
  }

  // ---------------------------------------------------------------------
  // Title sanitising

  predicate IsAsciiAlnum(c: char) {
    'a' <= c <= 'z' || 'A' <= c <= 'Z' || '0' <= c <= '9'
  }

  /** Characters kept in a file name: alphanumerics and " ._-". */
  predicate IsAllowed(c: char) {
    IsAsciiAlnum(c) || c == ' ' || c == '.' || c == '_' || c == '-'
  }

  /** `"".join(c for c in title if c.isalnum() or c in " ._-")`: keeps
      exactly the allowed characters, each as often and in the same order
      as in the title. */
  function KeepAllowed(title: string): (r: string)
    ensures forall i :: 0 <= i < |r| ==> IsAllowed(r[i])
    decreases |title|
  {
    if |title| == 0 then []
    else
      var rest := KeepAllowed(title[1..]);
      if IsAllowed(title[0]) then [title[0]] + rest else rest
  }

  lemma {:induction false} KeepAllowedIsSubsequence(title: string)
    ensures IsSubsequence(KeepAllowed(title), title)
    decreases |title|
  {
    if |title| > 0 {
      var rest := KeepAllowed(title[1..]);
      KeepAllowedIsSubsequence(title[1..]);
      if IsAllowed(title[0]) {
        assert ([title[0]] + rest)[1..] == rest;
      } else {
        SubsequenceExtend(rest, title);
      }
    }
  }

  /** Filtering keeps every allowed character as often as the title has it
      and no other character: together with the subsequence guarantee this
      pins the result down. */
  lemma {:induction false} KeepAllowedCounts(title: string)
    ensures forall c :: multiset(KeepAllowed(title))[c] == if IsAllowed(c) then multiset(title)[c] else 0
    decreases |title|
  {
    if |title| > 0 {
      KeepAllowedCounts(title[1..]);
      assert title == [title[0]] + title[1..];
    }
  }

  /** The safe base of the file name: the kept characters, stripped,
      truncated to 100 characters, stripped again and with trailing spaces
      and periods removed. */
  function SafeBase(title: string): (r: string)
    ensures forall i :: 0 <= i < |r| ==> IsAllowed(r[i])
    ensures IsSubsequence(r, title)
    ensures |r| <= MaxBaseLength
    ensures |r| > 0 ==> !Drops(SpaceOrDot, r[|r| - 1]) && !IsWhitespace(r[0])
  {
    SafeBaseFacts(title, KeepAllowed(title), Trim(KeepAllowed(title)));
    Trim(KeepAllowed(title))
  }

  lemma SafeBaseFacts(title: string, kept: string, r: string)
    requires kept == KeepAllowed(title) && r == Trim(kept)
    ensures forall i :: 0 <= i < |r| ==> IsAllowed(r[i])
    ensures IsSubsequence(r, title)
  {
    KeepAllowedIsSubsequence(title);
    TrimIsSafe(kept, title);
  }

  /** The string steps of `SafeBase` after filtering: `strip()`, `[:100]`,
      `strip()` and `rstrip(' .')`. */
  function Trim(kept: string): (r: string)
    ensures |r| <= MaxBaseLength
    ensures |r| > 0 ==> !Drops(SpaceOrDot, r[|r| - 1]) && !IsWhitespace(r[0])
  {
    var restripped := Strip(Take(Strip(kept, Whitespace), MaxBaseLength), Whitespace);
    RStrip(restripped, SpaceOrDot)
  }

  /** Each step of `Trim` only cuts characters off the ends, so what it
      returns is still made of allowed characters taken, in order, from the
      title. */
  lemma TrimIsSafe(kept: string, title: string)
    requires IsSafePiece(kept, title)
    ensures IsSafePiece(Trim(kept), title)
  {
    var stripped := Strip(kept, Whitespace);
    StripIsSafe(kept, title, Whitespace);
    var cut := Take(stripped, MaxBaseLength);
    TakeIsSafe(stripped, title, MaxBaseLength);
    var restripped := Strip(cut, Whitespace);
    StripIsSafe(cut, title, Whitespace);
    RStripIsSafe(restripped, title, SpaceOrDot);
  }

  /** `s` is made of allowed characters taken, in order, from the title. */
  predicate IsSafePiece(s: string, title: string) {
    (forall i :: 0 <= i < |s| ==> IsAllowed(s[i])) && IsSubsequence(s, title)
  }

  lemma StripIsSafe(s: string, title: string, drop: StripSet)
    requires IsSafePiece(s, title)
    ensures IsSafePiece(Strip(s, drop), title)
  {
    SafePiece(s, title, Strip(s, drop), LeadingCount(s, drop));
  }

  lemma TakeIsSafe(s: string, title: string, n: nat)
    requires IsSafePiece(s, title)
    ensures IsSafePiece(Take(s, n), title)
  {
    SafePrefix(s, title, Take(s, n));
  }

  lemma RStripIsSafe(s: string, title: string, drop: StripSet)
    requires IsSafePiece(s, title)
    ensures IsSafePiece(RStrip(s, drop), title)
  {
    SafePrefix(s, title, RStrip(s, drop));
  }

  lemma SafePrefix(s: string, title: string, piece: string)
    requires |piece| <= |s| && piece == s[..|piece|]
    requires IsSafePiece(s, title)
    ensures IsSafePiece(piece, title)
  {
    assert piece == s[0..|piece|];
    SafePiece(s, title, piece, 0);
  }

  /** Cutting a piece out of a string of allowed characters that is a
      subsequence of the title gives another one. */
  lemma SafePiece(s: string, title: string, piece: string, lo: nat)
    requires lo + |piece| <= |s| && piece == s[lo..lo + |piece|]
    requires IsSafePiece(s, title)
    ensures IsSafePiece(piece, title)
  {
    SubsequenceSlice(s, title, lo, lo + |piece|);
  }

  /** Allowed characters that `strip()` removes are spaces. */
  lemma AllowedWhitespaceIsSpace(c: char)
    requires IsAllowed(c) && IsWhitespace(c)
    ensures c == ' '
  {
  }

  /** On allowed characters, `Trim` returns the longest prefix of the first
      100 stripped characters that does not end in a space or a period:
      what it drops from them is only spaces and periods. So the second
      `strip()` never removes anything that `rstrip(' .')` would keep. */
  lemma TrimIsLongestPrefix(kept: string)
    requires forall i :: 0 <= i < |kept| ==> IsAllowed(kept[i])
    ensures var cut := Take(Strip(kept, Whitespace), MaxBaseLength);
      var r := Trim(kept);
      && |r| <= |cut| && r == cut[..|r|]
      && (forall i :: |r| <= i < |cut| ==> Drops(SpaceOrDot, cut[i]))
      && (|r| > 0 ==> !Drops(SpaceOrDot, r[|r| - 1]))
  {
    var stripped := Strip(kept, Whitespace);
    var cut := Take(stripped, MaxBaseLength);
    CutIsAllowed(kept, stripped, cut);
    NoLeadingToStrip(cut, Whitespace);
    StripWithoutLeading(cut, Whitespace);
    var restripped := RStrip(cut, Whitespace);
    TrailingSpacesAndDots(cut, restripped, RStrip(restripped, SpaceOrDot));
  }

  /** Removing trailing whitespace and then trailing spaces and periods
      from allowed characters removes only spaces and periods. */
  lemma TrailingSpacesAndDots(cut: string, mid: string, r: string)
    requires forall i :: 0 <= i < |cut| ==> IsAllowed(cut[i])
    requires |mid| <= |cut| && mid == cut[..|mid|]
    requires forall i :: |mid| <= i < |cut| ==> IsWhitespace(cut[i])
    requires |r| <= |mid| && r == mid[..|r|]
    requires forall i :: |r| <= i < |mid| ==> Drops(SpaceOrDot, mid[i])
    ensures r == cut[..|r|]
    ensures forall i :: |r| <= i < |cut| ==> Drops(SpaceOrDot, cut[i])
  {
    forall i | |r| <= i < |cut|
      ensures Drops(SpaceOrDot, cut[i])
    {
      if i >= |mid| {
        AllowedWhitespaceIsSpace(cut[i]);
      } else {
        assert cut[i] == mid[i];
      }
    }
  }

  lemma CutIsAllowed(kept: string, stripped: string, cut: string)
    requires forall i :: 0 <= i < |kept| ==> IsAllowed(kept[i])
    requires stripped == Strip(kept, Whitespace)
    requires cut == Take(stripped, MaxBaseLength)
    ensures forall i :: 0 <= i < |cut| ==> IsAllowed(cut[i])
    ensures |cut| > 0 ==> !IsWhitespace(cut[0])
  {
    var lo := LeadingCount(kept, Whitespace);
    assert forall i :: 0 <= i < |cut| ==> cut[i] == stripped[i] == kept[lo + i];
  }

  /** A name of at most 100 characters that starts with no whitespace and
      ends with no whitespace, space or period passes `Trim` unchanged. */
  lemma NothingToStrip(s: string)
    requires |s| <= MaxBaseLength
    requires |s| > 0 ==> !IsWhitespace(s[0]) && !IsWhitespace(s[|s| - 1]) && !Drops(SpaceOrDot, s[|s| - 1])
    ensures Trim(s) == s
  {
    NoLeadingToStrip(s, Whitespace);
    NoTrailingToStrip(s, Whitespace);
    assert Strip(s, Whitespace) == s;
    assert Take(s, MaxBaseLength) == s;
    NoTrailingToStrip(s, SpaceOrDot);
  }

  /** Sanitising a sanitised name changes nothing. */
  lemma SafeBaseIdempotent(title: string)
    ensures SafeBase(SafeBase(title)) == SafeBase(title)
  {
    var b := SafeBase(title);
    KeepAllowedUnchanged(b);
    if |b| > 0 {
      assert IsAllowed(b[|b| - 1]);
      if IsWhitespace(b[|b| - 1]) {
        AllowedWhitespaceIsSpace(b[|b| - 1]);
      }
    }
    NothingToStrip(b);
  }

  /** Filtering a concatenation filters each part. */
  lemma {:induction false} KeepAllowedConcat(a: string, b: string)
    ensures KeepAllowed(a + b) == KeepAllowed(a) + KeepAllowed(b)
    decreases |a|
  {
    if |a| > 0 {
      assert (a + b)[1..] == a[1..] + b;
      KeepAllowedConcat(a[1..], b);
    } else {
      assert a + b == b;
    }
  }

  /** A title made only of allowed characters is kept whole. */
  lemma {:induction false} KeepAllowedUnchanged(s: string)
    requires forall i :: 0 <= i < |s| ==> IsAllowed(s[i])
    ensures KeepAllowed(s) == s
    decreases |s|
  {
    if |s| > 0 {
      KeepAllowedUnchanged(s[1..]);
      assert s == [s[0]] + s[1..];
    }
  }

  // ---------------------------------------------------------------------
  // File name

  /** `f"{filename_safe}_{itag}.{ext}"`. */
  function DownloadName(title: string, itag: string, mime: string): string {
    SafeBase(title) + "_" + itag + "." + Extension(mime)
  }

  /** The part of a name after its last period (the whole name if it has
      none): the extension a filesystem reads off the name. */
  function AfterLastDot(s: string): (r: string)
    ensures '.' !in r
    decreases |s|
  {
    if |s| == 0 || s[|s| - 1] == '.' then []
    else AfterLastDot(s[..|s| - 1]) + [s[|s| - 1]]
  }

  lemma {:induction false} AfterLastDotOfSuffix(p: string, e: string)
    requires '.' !in e
    ensures AfterLastDot(p + "." + e) == e
    decreases |e|
  {
    if |e| > 0 {
      var e' := e[..|e| - 1];
      assert (p + "." + e)[..|p + "." + e| - 1] == p + "." + e';
      AfterLastDotOfSuffix(p, e');
      assert e == e' + [e[|e| - 1]];
    } else {
      assert (p + "." + e)[..|p + "." + e| - 1] == p;
    }
  }

  /** Whatever the title and the requested itag, the name ends in the
      chosen extension: the text after its last period is exactly it. */
  lemma DownloadNameExtension(title: string, itag: string, mime: string)
    ensures AfterLastDot(DownloadName(title, itag, mime)) == Extension(mime)
  {
    AfterLastDotOfSuffix(SafeBase(title) + "_" + itag, Extension(mime));
  }

  /** The title cannot put a path separator into the name: one can appear
      only if the requested itag holds it. */
  lemma DownloadNameHasNoSeparator(title: string, itag: string, mime: string)
    requires '/' !in itag && '\\' !in itag
    ensures '/' !in DownloadName(title, itag, mime)
    ensures '\\' !in DownloadName(title, itag, mime)
  {
    NoSeparatorIn(SafeBase(title), itag, Extension(mime));
  }

  lemma NoSeparatorIn(base: string, itag: string, ext: string)
    requires forall i :: 0 <= i < |base| ==> IsAllowed(base[i])
    requires '/' !in itag && '\\' !in itag
    requires ext == "mp4" || ext == "m4a" || ext == "webm"
    ensures '/' !in base + "_" + itag + "." + ext
    ensures '\\' !in base + "_" + itag + "." + ext
  {
    var n := base + "_" + itag + "." + ext;
    forall i | 0 <= i < |n|
      ensures n[i] != '/' && n[i] != '\\'
    {
      if i < |base| {
        assert n[i] == base[i];
      } else if i == |base| {
        assert n[i] == '_';
      } else if i < |base| + 1 + |itag| {
        assert n[i] == itag[i - |base| - 1];
      } else {
        assert n[i] in "." + ext;
      }
    }
  }

  // ---------------------------------------------------------------------
  // Variant lookup

  /** `str(getattr(s, "itag", ""))`. */
  function ItagText(s: StreamRecord): string {
    match s.itag
    case None => ""
    case Some(n) => DecimalText(n)
  }

  /** A rendered itag is digits after an optional '-': it holds no path
      separator. */
  lemma ItagTextHasNoSeparator(s: StreamRecord)
    ensures '/' !in ItagText(s) && '\\' !in ItagText(s)
  {
    if s.itag.Some? {
      var n := s.itag.value;
      var t := ItagText(s);
      forall i | 0 <= i < |t|
        ensures t[i] != '/' && t[i] != '\\'
      {
        if n < 0 {
          if i > 0 {
            assert t[i] == Digits(-n)[i - 1];
          }
        }
      }
    }
  }

  /** For a request written as a number, a text match is a numeric match. */
  lemma ItagTextMatchesNumber(s: StreamRecord, n: int)
    ensures ItagText(s) == DecimalText(n) <==> s.itag == Some(n)
  {
    if s.itag.Some? {
      DecimalTextInjective(s.itag.value, n);
    }
  }

  /** Index `i` holds the first stream whose itag text is `itag`. */
  predicate IsFirstMatch(streams: seq<StreamRecord>, itag: string, i: nat) {
    && i < |streams|
    && ItagText(streams[i]) == itag
    && forall j :: 0 <= j < i ==> ItagText(streams[j]) != itag
  }

  /** The scan of `download`: the first stream whose itag text equals the
      requested one, or `None` when none does. */
  method FindByItag(streams: seq<StreamRecord>, itag: string) returns (r: Option<nat>)
    ensures r.Some? ==> IsFirstMatch(streams, itag, r.value)
    ensures r.None? <==> forall j :: 0 <= j < |streams| ==> ItagText(streams[j]) != itag
  {
    var i := 0;
    while i < |streams|
      invariant i <= |streams|
      invariant forall j :: 0 <= j < i ==> ItagText(streams[j]) != itag
    {
      if ItagText(streams[i]) == itag {
        return Some(i);
      }
      i := i + 1;
    }
    return None;
  }

  // ---------------------------------------------------------------------
  // Download decision

  datatype DownloadError =
    | MissingParameter  // the request carries no url or no itag (status 400)
    | ItagNotFound      // no variant has the requested itag (status 404)

  /** The variant to fetch and the attachment name to send it under. */
  datatype DownloadPlan = DownloadPlan(stream: StreamRecord, fileName: string)

  /** `getattr(target_stream, "mime_type", "")`. */
  function MimeOf(s: StreamRecord): string {
    s.mimeType.GetOr("")
  }

  /** What `download` decides before fetching any bytes. An absent query
      parameter is the empty text. */
  method PlanDownload(url: string, title: string, streams: seq<StreamRecord>, itag: string)
    returns (r: Result<DownloadPlan, DownloadError>)
    ensures url == "" || itag == "" <==> r == Err(MissingParameter)
    ensures r == Err(ItagNotFound) <==>
              url != "" && itag != "" && forall j :: 0 <= j < |streams| ==> ItagText(streams[j]) != itag
    ensures r.Ok? ==> exists i: nat :: IsFirstMatch(streams, itag, i) && r.value.stream == streams[i]
    ensures r.Ok? ==> r.value.fileName == DownloadName(title, itag, MimeOf(r.value.stream))
    ensures r.Ok? ==> '/' !in r.value.fileName && '\\' !in r.value.fileName
  {
    if url == "" || itag == "" {
      return Err(MissingParameter);
    }
    var found := FindByItag(streams, itag);
    match found {
      case None =>
        return Err(ItagNotFound);
      case Some(i) =>
        var target := streams[i];
        ItagTextHasNoSeparator(target);
        DownloadNameHasNoSeparator(title, itag, MimeOf(target));
        return Ok(DownloadPlan(target, DownloadName(title, itag, MimeOf(target))));
    }
  }

  /** The extensions of the common MIME types. Note that audio in an mp4
      container gets "mp4" and audio in webm gets "m4a". */
  lemma ExtensionExamples()
    ensures Extension("video/mp4") == "mp4"
    ensures Extension("video/webm") == "webm"
    ensures Extension("audio/webm") == "m4a"
    ensures Extension("audio/mp4") == "mp4"
  {
    ExtensionOfVideoMp4();
    ExtensionOfVideoWebm();
    ExtensionOfAudioWebm();
    ExtensionOfAudioMp4();
  }

  lemma ExtensionOfVideoMp4()
    ensures Extension("video/mp4") == "mp4"
  {
    MissingCharNotContained("video/mp4", "audio", 0);
    MissingCharNotContained("video/mp4", "webm", 0);
  }

  lemma ExtensionOfVideoWebm()
    ensures Extension("video/webm") == "webm"
  {
    MissingCharNotContained("video/webm", "audio", 0);
    ContainsAt("video/webm", "video", 0);
    ContainsAt("video/webm", "webm", 6);
  }

  lemma ExtensionOfAudioWebm()
    ensures Extension("audio/webm") == "m4a"
  {
    ContainsAt("audio/webm", "audio", 0);
    MissingCharNotContained("audio/webm", "mp4", 2);
  }

  lemma ExtensionOfAudioMp4()
    ensures Extension("audio/mp4") == "mp4"
  {
    ContainsAt("audio/mp4", "audio", 0);
    ContainsAt("audio/mp4", "mp4", 6);
    MissingCharNotContained("audio/mp4", "video", 0);
  }
}
