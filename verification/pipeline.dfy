/**
  The caption-to-report run of app.py lines 72-133: give up when there are
  no captions, split and chunk them, and either summarise every chunk and
  synthesise over the numbered summaries (more than one chunk), or
  synthesise directly over the raw captions (zero or one chunk).
 */
module Pipeline {
  import opened Words
  import opened Chunking
  import opened Prompts
  import opened Streams

  datatype Option<T> = None | Some(value: T)

  /** A language-model call: from its 0-based position among the run's
      calls and its prompt, the fragments it streams back. The position
      stands in for the model's nondeterminism. */
  type Model = (nat, string) -> seq<Fragment>

  datatype Path = Direct | Chunked

  /** What a run produces: nothing when the captions are missing, otherwise
      the branch taken, the chunk texts, the chunk summaries, every prompt
      sent to the model in call order, and the final report. */
  datatype Outcome =
    | CaptionsUnavailable
    | Summarized(path: Path, chunks: seq<string>, chunkSummaries: seq<string>,
                 calls: seq<string>, report: string)

  /** Python's `not video_captions`: absent or empty. */
  predicate NoCaptions(captions: Option<string>)
  {
    captions.None? || captions.value == ""
  }

  method Summarize(url: string, videoData: string, captions: Option<string>,
                   chunkLimit: nat, model: Model) returns (outcome: Outcome)
    requires chunkLimit > 0
    // missing captions stop the run before any model call
    ensures outcome.CaptionsUnavailable? <==> NoCaptions(captions)
    ensures outcome.Summarized? ==>
      var words := Split(captions.value);
      var ws := Windows(words, chunkLimit);
      && outcome.chunks == JoinEach(ws)
      // the chunk-summary branch runs exactly when the words overflow one chunk
      && (outcome.path == Chunked <==> |words| > chunkLimit)
      && |outcome.calls| > 0
      && outcome.report == Collected(model(|outcome.calls| - 1, outcome.calls[|outcome.calls| - 1]))
    ensures outcome.Summarized? && outcome.path == Chunked ==>
      var ws := Windows(Split(captions.value), chunkLimit);
      && |outcome.chunkSummaries| == |ws|
      && |outcome.calls| == |ws| + 1
      && (forall i :: 0 <= i < |ws| ==>
            && outcome.calls[i] == ChunkPrompt(videoData, outcome.chunks[i])
            && outcome.chunkSummaries[i] == Collected(model(i, outcome.calls[i])))
      && outcome.calls[|ws|] == MultiPrompt(url, videoData, outcome.chunkSummaries)
    ensures outcome.Summarized? && outcome.path == Direct ==>
      && outcome.chunkSummaries == []
      && outcome.calls == [DirectPrompt(url, videoData, captions.value)]
  {
    if captions.None? || captions.value == "" {
      return CaptionsUnavailable;
    }
    var text := captions.value;
    var words := Split(text);
    var chunks, numChunks := ChunkWords(words, chunkLimit);
    ChunkCount(words, chunkLimit);
    if numChunks > 1 {
      var summaries, calls := SummarizeChunks(videoData, chunks, model);
      var videoInfo := BuildMultiPrompt(url, videoData, summaries);
      var report := Accumulate(model(numChunks, videoInfo));
      outcome := Summarized(Chunked, chunks, summaries, calls + [videoInfo], report);
    } else {
      var videoInfo := "Video URL: " + url + "\n\n";
      videoInfo := videoInfo + "Video Data: " + videoData + "\n\n";
      videoInfo := videoInfo + "Captions: " + text + "\n\n";
      assert videoInfo == DirectPrompt(url, videoData, text);
      var report := Accumulate(model(0, videoInfo));
      outcome := Summarized(Direct, chunks, [], [videoInfo], report);
    }
  }

  /** The chunk-summary loop, app.py lines 91-104: the i-th model call gets
      the i-th chunk's prompt, and its streamed content is that chunk's
      summary, in chunk order. */
  method SummarizeChunks(videoData: string, chunks: seq<string>, model: Model)
    returns (summaries: seq<string>, calls: seq<string>)
    ensures |summaries| == |calls| == |chunks|
    ensures forall i :: 0 <= i < |chunks| ==>
              && calls[i] == ChunkPrompt(videoData, chunks[i])
              && summaries[i] == Collected(model(i, calls[i]))
  {
    summaries, calls := [], [];
    var i := 0;
    while i < |chunks|
      invariant i <= |chunks|
      invariant |summaries| == |calls| == i
      invariant forall j :: 0 <= j < i ==>
                  && calls[j] == ChunkPrompt(videoData, chunks[j])
                  && summaries[j] == Collected(model(j, calls[j]))
    {
      var chunkInfo := "Video data: " + videoData + "\n\n";
      chunkInfo := chunkInfo + chunks[i] + "\n\n";
      assert chunkInfo == ChunkPrompt(videoData, chunks[i]);
      var summary := Accumulate(model(i, chunkInfo));
      summaries := summaries + [summary];
      calls := calls + [chunkInfo];
      i := i + 1;
    }
  }

  /** Captions that are present but only whitespace pass the emptiness test
      yet yield no words, so the run takes the direct path over them. */
  lemma BlankCaptionsGoDirect(text: string, chunkLimit: nat)
    requires chunkLimit > 0
    requires text != "" && forall i :: 0 <= i < |text| ==> IsSpace(text[i])
    ensures !NoCaptions(Some(text))
    ensures |Split(text)| <= chunkLimit
    ensures |Windows(Split(text), chunkLimit)| == 0
  {
    SplitBlank(text);
  }
}
