/**
 * The transcript fetcher (`get_transcript_and_language`). The transcript
 * service and the language detector are oracles given as finite maps:
 * `fetch` gives the caption segments' texts for the ids whose request
 * succeeds, and `detect` gives a language code for the texts whose
 * detection succeeds; a missing key is a failure.
 */
module Transcripts {
  import opened VideoTypes

  /** The sentinel text of a failed transcript. */
  const VideoError: string := "Video Error"
  /** The sentinel language. */
  const Unknown: string := "unknown"

  datatype Transcript = Transcript(text: string, language: string)

  /** The segment texts joined with single spaces. */
  function Join(segments: seq<string>): string
  {
    if |segments| == 0 then ""
    else if |segments| == 1 then segments[0]
    else segments[0] + " " + Join(segments[1..])
  }

  /** The pieces between single spaces, empty ones included: the inverse
      of the join. */
  function Split(s: string): (pieces: seq<string>)
    ensures |pieces| > 0
  {
    if |s| == 0 then [""]
    else if s[0] == ' ' then [""] + Split(s[1..])
    else
      var rest := Split(s[1..]);
      [[s[0]] + rest[0]] + rest[1..]
  }

  predicate NoSpace(s: string)
  {
    forall i :: 0 <= i < |s| ==> s[i] != ' '
  }

  lemma {:induction false} SplitAfterWord(w: string, rest: string)
    requires NoSpace(w)
    ensures Split(w + " " + rest) == [w] + Split(rest)
    ensures Split(w) == [w]
  {
    if |w| == 0 {
      assert w + " " + rest == [' '] + rest;
      assert ([' '] + rest)[1..] == rest;
    } else {
      SplitAfterWord(w[1..], rest);
      assert (w + " " + rest)[1..] == w[1..] + " " + rest;
      assert [w[0]] + w[1..] == w;
    }
  }

  /** The join loses nothing when no segment holds a space: splitting the
      joined text at its spaces gives back the segments. */
  lemma {:induction false} SplitJoin(segments: seq<string>)
    requires |segments| > 0
    requires forall k :: 0 <= k < |segments| ==> NoSpace(segments[k])
    ensures Split(Join(segments)) == segments
  {
    if |segments| == 1 {
      SplitAfterWord(segments[0], "");
    } else {
      SplitJoin(segments[1..]);
      SplitAfterWord(segments[0], Join(segments[1..]));
    }
  }

  function TotalLength(segments: seq<string>): nat
  {
    if |segments| == 0 then 0 else |segments[0]| + TotalLength(segments[1..])
  }

  /** One separator between each two neighbouring segments and none elsewhere. */
  lemma {:induction false} JoinLength(segments: seq<string>)
    requires |segments| > 0
    ensures |Join(segments)| == TotalLength(segments) + |segments| - 1
  {
    if |segments| > 1 {
      JoinLength(segments[1..]);
    }
  }

  /** An empty id, or any failure of the transcript request, gives exactly the
      sentinel pair; a successful request gives the segments joined with
      single spaces, and the detected language or "unknown" when detection
      fails, the text being kept either way. The transcript service answers
      the ids in `fetch` and fails for every other id; the detector answers
      the texts in `detect` and raises for every other text. */
  function TranscriptAndLanguage(videoId: VideoId, fetch: map<VideoId, seq<string>>,
                                 detect: map<string, string>): (t: Transcript)
    ensures videoId == "" || videoId !in fetch ==> t == Transcript(VideoError, Unknown)
    ensures videoId != "" && videoId in fetch ==>
      && t.text == Join(fetch[videoId])
      && (t.text in detect ==> t.language == detect[t.text])
      && (t.text !in detect ==> t.language == Unknown)
    ensures videoId != "" && videoId in fetch && |fetch[videoId]| > 0
            && (forall k :: 0 <= k < |fetch[videoId]| ==> NoSpace(fetch[videoId][k])) ==>
      Split(t.text) == fetch[videoId]
  {
    if videoId == "" || videoId !in fetch then Transcript(VideoError, Unknown)
    else
      var segments := fetch[videoId];
      var fullTranscript := Join(segments);
      var language := if fullTranscript in detect then detect[fullTranscript] else Unknown;
      JoinRecoverable(segments);
      Transcript(fullTranscript, language)
  }

  /** The join of non-empty, space-free segments can be split back. */
  lemma JoinRecoverable(segments: seq<string>)
    ensures |segments| > 0 && (forall k :: 0 <= k < |segments| ==> NoSpace(segments[k])) ==>
      Split(Join(segments)) == segments
  {
    if |segments| > 0 && (forall k :: 0 <= k < |segments| ==> NoSpace(segments[k])) {
      SplitJoin(segments);
    }
  }
}
