/** Concrete rankings: the orderings the service is documented to produce
    for small, typical stream lists. */
module RankingExamples {
  import opened Options
  import opened Sizes
  import opened Numerals
  import opened Streams
  import opened Ranking

  function VideoOnly(itag: int, res: string): StreamRecord {
    StreamRecord(Some(itag), Some("video/mp4"), Some("video"), Some(res), Some(30), None,
                 Some(false), Literal("N/A"), Some(true), Some("mp4"))
  }

  function AudioOnly(itag: int, abr: string): StreamRecord {
    StreamRecord(Some(itag), Some("audio/mp4"), Some("audio"), None, None, Some(abr),
                 Some(false), Literal("N/A"), Some(true), Some("mp4"))
  }

  function Progressive(itag: int, res: string): StreamRecord {
    StreamRecord(Some(itag), Some("video/mp4"), Some("video"), Some(res), Some(30), Some("96kbps"),
                 Some(true), Literal("N/A"), Some(false), Some("mp4"))
  }

  lemma ExampleKeys()
    ensures Key(VideoOnly(160, "144p")) == (1, 0, -144, 0)
    ensures Key(VideoOnly(137, "1080p")) == (1, 0, -1080, 0)
    ensures Key(VideoOnly(136, "720p")) == (1, 0, -720, 0)
  {
    Key144();
    Key1080();
    Key720();
  }

  lemma Key144()
    ensures Key(VideoOnly(160, "144p")) == (1, 0, -144, 0)
  {
    assert "144p"[..3] == "144";
    assert "144"[..2] == "14";
    assert DigitsValue("144") == 144;
  }

  lemma Key1080()
    ensures Key(VideoOnly(137, "1080p")) == (1, 0, -1080, 0)
  {
    assert "1080p"[..4] == "1080";
    assert "1080"[..3] == "108";
    assert "108"[..2] == "10";
    assert DigitsValue("1080") == 1080;
  }

  lemma Key720()
    ensures Key(VideoOnly(136, "720p")) == (1, 0, -720, 0)
  {
    assert "720p"[..3] == "720";
    assert "720"[..2] == "72";
    assert DigitsValue("720") == 720;
  }

  lemma ResolutionSteps()
    ensures var a, b, c := VideoOnly(160, "144p"), VideoOnly(137, "1080p"), VideoOnly(136, "720p");
      Rank([b, c]) == [b, c] && Insert(a, [b, c]) == [b, c, a]
  {
    var a, b, c := VideoOnly(160, "144p"), VideoOnly(137, "1080p"), VideoOnly(136, "720p");
    ExampleKeys();
    assert [b, c][1..] == [c] && [c][1..] == [];
    assert Rank([c]) == [c];
    assert Insert(b, [c]) == [b, c];
    assert Insert(a, [c]) == [c, a];
    assert Insert(a, [b, c]) == [b] + Insert(a, [c]);
  }

  /** Video-only streams come out by descending resolution. */
  lemma ResolutionExample()
    ensures Rank([VideoOnly(160, "144p"), VideoOnly(137, "1080p"), VideoOnly(136, "720p")])
         == [VideoOnly(137, "1080p"), VideoOnly(136, "720p"), VideoOnly(160, "144p")]
  {
    var a, b, c := VideoOnly(160, "144p"), VideoOnly(137, "1080p"), VideoOnly(136, "720p");
    ResolutionSteps();
    assert [a, b, c][1..] == [b, c];
  }

  lemma AudioKeys()
    ensures Key(AudioOnly(139, "48kbps")) == (1, 1, 0, -48)
    ensures Key(AudioOnly(140, "128kbps")) == (1, 1, 0, -128)
    ensures Key(AudioOnly(141, "256kbps")) == (1, 1, 0, -256)
  {
    Key48();
    Key128();
    Key256();
  }

  lemma Key48()
    ensures Key(AudioOnly(139, "48kbps")) == (1, 1, 0, -48)
  {
    assert "48kbps"[..2] == "48";
    assert "48"[..1] == "4";
    assert DigitsValue("48") == 48;
  }

  lemma Key128()
    ensures Key(AudioOnly(140, "128kbps")) == (1, 1, 0, -128)
  {
    assert "128kbps"[..3] == "128";
    assert "128"[..2] == "12";
    assert DigitsValue("128") == 128;
  }

  lemma Key256()
    ensures Key(AudioOnly(141, "256kbps")) == (1, 1, 0, -256)
  {
    assert "256kbps"[..3] == "256";
    assert "256"[..2] == "25";
    assert DigitsValue("256") == 256;
  }

  lemma BitrateSteps()
    ensures var a, b, c := AudioOnly(140, "128kbps"), AudioOnly(141, "256kbps"), AudioOnly(139, "48kbps");
      Rank([b, c]) == [b, c] && Insert(a, [b, c]) == [b, a, c]
  {
    var a, b, c := AudioOnly(140, "128kbps"), AudioOnly(141, "256kbps"), AudioOnly(139, "48kbps");
    AudioKeys();
    assert [b, c][1..] == [c] && [c][1..] == [];
    assert Rank([c]) == [c];
    assert Insert(b, [c]) == [b, c];
    assert Insert(a, [c]) == [a, c];
    assert Insert(a, [b, c]) == [b] + Insert(a, [c]);
  }

  /** Audio-only streams come out by descending bitrate. */
  lemma BitrateExample()
    ensures Rank([AudioOnly(140, "128kbps"), AudioOnly(141, "256kbps"), AudioOnly(139, "48kbps")])
         == [AudioOnly(141, "256kbps"), AudioOnly(140, "128kbps"), AudioOnly(139, "48kbps")]
  {
    var a, b, c := AudioOnly(140, "128kbps"), AudioOnly(141, "256kbps"), AudioOnly(139, "48kbps");
    BitrateSteps();
    assert [a, b, c][1..] == [b, c];
  }

  /** A progressive 360p stream is ranked ahead of an audio-only stream
      listed before it. */
  lemma ProgressiveExample()
    ensures Rank([AudioOnly(140, "128kbps"), Progressive(18, "360p")])
         == [Progressive(18, "360p"), AudioOnly(140, "128kbps")]
  {
    var a, p := AudioOnly(140, "128kbps"), Progressive(18, "360p");
    ProgressiveSteps();
    assert [a, p][1..] == [p];
  }

  lemma ProgressiveSteps()
    ensures var a, p := AudioOnly(140, "128kbps"), Progressive(18, "360p");
      Rank([p]) == [p] && Insert(a, [p]) == [p, a]
  {
    var a, p := AudioOnly(140, "128kbps"), Progressive(18, "360p");
    KeyParts(a);
    KeyParts(p);
    assert !KeyLe(Key(a), Key(p));
    assert [p][1..] == [];
    assert Insert(a, [p]) == [p] + Insert(a, []);
  }
}
