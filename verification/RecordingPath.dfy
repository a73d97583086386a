/** From a recorder to a summary: what the controller writes is what the report analyses. */
module RecordingPath {
  import opened Basics
  import opened JsonValues
  import opened JsonGrammar
  import opened Recordings
  import opened TickSamples
  import opened TickSummaries
  import opened Serializer
  import opened Analysis

  /** The text written for a recording is accepted exactly if its samples are in order and the selected ticks' times
      add up within 64 bits; then the header is the recorder's and the summary is that of its selected samples. It is
      never refused as malformed or as of another schema. */
  lemma WrittenIsAnalyzed(f: Floats, r: Recording, w: Window)
    requires FromRecorder(r) && r.runId != "" && ClockOk(r.origin) && (forall s :: s in r.samples ==> ValidSample(s))
    requires !Backwards(w)
    ensures var text, root := Dump(NO_FLOATS, Obj(RecordingMembers(r))), Obj(RecordingMembers(r));
            && Parse(f, text) == Some(root) && HeaderOf(root).Read?
            && HeaderOf(root).header == Header(r.runId, r.capacity, |r.samples|, r.dropped, r.origin)
            && LogOf(HeaderOf(root).samples) == Some(r.samples)
            && (RecordingError(f, text, w).None? <==>
                  WellOrdered(r.samples) && TickTime(Selected(r.samples, w)) <= U64_MAX)
  {
    SerializedIsRead(f, r);
  }

  /** And a recording the serializer refuses is one that could not have been analysed. */
  method WriteThenAnalyze(f: Floats, r: Recording, w: Window) returns (result: Option<Result>)
    requires FromRecorder(r) && !Backwards(w)
    ensures result.Some? <==>
              && r.runId != "" && (r.origin.Some? ==> r.origin.value.before <= r.origin.value.after)
              && forall s :: s in r.samples ==> ValidSample(s)
    ensures result.Some? ==>
              (result.value.Accepted? <==> WellOrdered(r.samples) && TickTime(Selected(r.samples, w)) <= U64_MAX)
    ensures result.Some? && result.value.Accepted? ==>
              && result.value.header == Header(r.runId, r.capacity, |r.samples|, r.dropped, r.origin)
              && Summarizes(result.value.summary, Selected(r.samples, w))
  {
    var text := SerializeRecording(r);
    if text.None? {
      return None;
    }
    WrittenIsAnalyzed(f, r, w);
    var analyzed := AnalyzeRecording(f, text.value, w);
    result := Some(analyzed);
  }
}
