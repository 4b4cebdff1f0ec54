/**
 * The transcription step: every audio file named `<number>_<title>.mp3`
 * is transcribed (Whisper, translating Hindi speech to English) and its
 * segments are written as chunk records to `jsons/<audio>.json`.
 * Whisper is a parameter of the model; the JSON encoding is not modelled.
 */
module Mp3ToJson {
  import opened Wrappers
  import opened PyStr
  import Seq
  import VideoToMp3

  /** The field separator of the audio naming convention. */
  const Underscore: string := "_"
  /** Length of the `.mp3` extension that `[:-4]` removes from the title. */
  const ExtensionLength: nat := 4

  /** One timed segment of Whisper's output. */
  datatype Segment = Segment(start: real, end: real, text: string)

  /** Whisper's result for one audio file: its segments and the full text. */
  datatype Transcription = Transcription(segments: seq<Segment>, text: string)

  /** A transcript chunk: one segment tagged with the video's number and title. */
  datatype Chunk = Chunk(number: string, title: string, start: real, end: real, text: string)

  /** The document written per audio file: the chunks and the full transcript text. */
  datatype Transcript = Transcript(chunks: seq<Chunk>, text: string)

  /** A JSON file the script writes: its path and its content. */
  datatype JsonFile = JsonFile(path: string, content: Transcript)

  /** The script processes an audio file only when `"_" in audio`. */
  predicate Eligible(audio: string)
  {
    Contains(audio, Underscore)
  }

  /**
   * `number = audio.split("_")[0]` and `title = audio.split("_")[1][:-4]`,
   * for the files the script processes; `None` for the files it skips.
   */
  function ParseAudioName(audio: string): (r: Option<(string, string)>)
    ensures r.None? <==> !Eligible(audio)
    ensures r.Some? ==> r.value.0 <= audio && '_' !in r.value.0
    ensures r.Some? ==> OccursAt(audio, Underscore, |r.value.0|)
    ensures r.Some? ==>
              r.value.1 == DropLast(Before(After(audio, Underscore), Underscore), ExtensionLength)
    ensures r.Some? && |Before(After(audio, Underscore), Underscore)| < ExtensionLength ==>
              r.value.1 == ""
  {
    if !Contains(audio, Underscore) then None
    else
      var fields := Split(audio, Underscore);
      SecondField(audio, Underscore);
      ContainsChar(fields[0], '_');
      Some((fields[0], DropLast(fields[1], ExtensionLength)))
  }

  /** The chunk record built from one segment. */
  function ChunkOf(number: string, title: string, s: Segment): Chunk
  {
    Chunk(number, title, s.start, s.end, s.text)
  }

  /** The loop appending one chunk per segment, in segment order. */
  function Chunks(number: string, title: string, segments: seq<Segment>): (r: seq<Chunk>)
    ensures |r| == |segments|
    ensures forall i :: 0 <= i < |r| ==>
              && r[i].number == number && r[i].title == title
              && r[i].start == segments[i].start && r[i].end == segments[i].end
              && r[i].text == segments[i].text
  {
    if |segments| == 0 then []
    else
      var last := |segments| - 1;
      Chunks(number, title, segments[..last]) + [ChunkOf(number, title, segments[last])]
  }

  /**
   * The body of the loop for one audio file: skipped without `_`,
   * otherwise the chunks of its transcription written to `jsons/<audio>.json`.
   */
  function TranscribeAudio(audio: string, t: Transcription): (r: Option<JsonFile>)
    ensures r.None? <==> !Eligible(audio)
    ensures r.Some? ==> r.value.path == "jsons/" + audio + ".json"
    ensures r.Some? ==> r.value.content.text == t.text
    ensures r.Some? ==> |r.value.content.chunks| == |t.segments|
    ensures r.Some? ==> forall i :: 0 <= i < |t.segments| ==>
              var c := r.value.content.chunks[i];
              && (c.number, c.title) == ParseAudioName(audio).value
              && c.start == t.segments[i].start && c.end == t.segments[i].end
              && c.text == t.segments[i].text
  {
    match ParseAudioName(audio)
    case None => None
    case Some((number, title)) =>
      Some(JsonFile("jsons/" + audio + ".json", Transcript(Chunks(number, title, t.segments), t.text)))
  }

  /**
   * The whole script over the directory listing `audios`, with `whisper`
   * standing for the transcription model: one JSON file per eligible audio
   * file, in listing order; the others produce nothing.
   */
  function ProcessAll(audios: seq<string>, whisper: string -> Transcription): (r: seq<JsonFile>)
    ensures |r| == |Seq.Filter(Eligible, audios)| <= |audios|
    ensures forall k :: 0 <= k < |r| ==>
              var audio := Seq.Filter(Eligible, audios)[k];
              && audio in audios && Eligible(audio)
              && Some(r[k]) == TranscribeAudio(audio, whisper(audio))
  {
    var eligible := Seq.Filter(Eligible, audios);
    seq(|eligible|, k requires 0 <= k < |eligible| =>
      TranscribeAudio(eligible[k], whisper(eligible[k])).value)
  }

  /**
   * The naming convention round-trips: when neither part contains `_`,
   * parsing `<number>_<title>.mp3` gives back the number and the title.
   */
  lemma ParseRoundTrip(number: string, title: string)
    requires '_' !in number && '_' !in title
    ensures ParseAudioName(number + "_" + title + ".mp3") == Some((number, title))
  {
    var fields := [number, title + ".mp3"];
    assert '_' !in title + ".mp3";
    SplitJoin(fields, '_');
    var audio := number + "_" + title + ".mp3";
    assert Join(fields, Underscore) == audio;
    assert (title + ".mp3")[..|title|] == title;
  }

  /**
   * Across the two scripts: the audio name the conversion step gives a
   * video parses back into that video's tutorial number and base name,
   * provided neither contains `_`.
   */
  lemma AudioNameParsesBack(file: string)
    ensures && VideoToMp3.AudioName(file).Success?
            && '_' !in VideoToMp3.TutorialNumber(file).value
            && '_' !in VideoToMp3.BaseName(file)
            ==> ParseAudioName(VideoToMp3.AudioName(file).value)
                == Some((VideoToMp3.TutorialNumber(file).value, VideoToMp3.BaseName(file)))
  {
    if VideoToMp3.AudioName(file).Success? {
      SplitFields(file, VideoToMp3.TitleSep);
      if '_' !in VideoToMp3.TutorialNumber(file).value && '_' !in VideoToMp3.BaseName(file) {
        ParseRoundTrip(VideoToMp3.TutorialNumber(file).value, VideoToMp3.BaseName(file));
      }
    }
  }
}
