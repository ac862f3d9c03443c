/** The stream record the service builds for each variant (`stream_to_dict`),
    with every attribute that may be missing as an `Option`. */
module Streams {
  import opened Options
  import opened Sizes

  datatype StreamRecord = StreamRecord(
    itag: Option<int>,
    mimeType: Option<string>,
    kind: Option<string>,          // "video" or "audio"
    resolution: Option<string>,    // e.g. "720p"
    fps: Option<int>,
    abr: Option<string>,           // audio bitrate, e.g. "128kbps"
    isProgressive: Option<bool>,
    filesize: SizeText,            // already formatted by FormatBytes
    isAdaptive: Option<bool>,
    mimeSubtype: Option<string>)

  /** Python truthiness of `is_progressive`: only an actual `True` counts. */
  predicate IsProgressive(s: StreamRecord) {
    s.isProgressive == Some(true)
  }

  predicate HasKind(s: StreamRecord, kind: string) {
    s.kind == Some(kind)
  }

  /** A video-only variant: type "video" and not progressive. */
  predicate IsVideoOnly(s: StreamRecord) {
    HasKind(s, "video") && !IsProgressive(s)
  }

  /** An audio-only variant: type "audio" and not progressive. */
  predicate IsAudioOnly(s: StreamRecord) {
    HasKind(s, "audio") && !IsProgressive(s)
  }
}
