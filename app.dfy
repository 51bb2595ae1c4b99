/** App.tsx: the application state and the analysis run. The remote service,
    the system-prompt table, the API key and the clock are parameters of the run. */
module App {
  import opened Types
  import opened JsString
  import GeminiService
  import VideoUploader

  /** `HARDCODED_MODEL` */
  const HardcodedModel: string := "gemini-2.0-flash-exp"

  /** The guard of `handleAnalyze`: some video is selected and the prompt is not blank. */
  predicate CanAnalyze(videos: seq<VideoFile>, prompt: string) {
    |videos| > 0 && Trim(prompt) != []
  }

  /** The guard holds exactly when there is a video and the prompt has a
      character that is not white space. */
  lemma CanAnalyzeIff(videos: seq<VideoFile>, prompt: string)
    ensures CanAnalyze(videos, prompt) <==> |videos| > 0 && exists i :: 0 <= i < |prompt| && !IsWhiteSpace(prompt[i])
  {
    TrimEmptyIffBlank(prompt);
  }

  /** `disabled` of the analyze button. */
  predicate AnalyzeButtonDisabled(videos: seq<VideoFile>, prompt: string, status: AnalysisStatus) {
    |videos| == 0 || Trim(prompt) == [] || status == Analyzing
  }

  /** `disabled` of the uploader (file input and remove buttons). */
  predicate UploaderDisabled(status: AnalysisStatus) {
    status == Analyzing || status == Uploading
  }

  /** The button is enabled exactly when a click starts a run and no request is in
      flight; while a request is in flight neither the button nor the uploader
      accepts input. */
  lemma ButtonEnabledIffRunnable(videos: seq<VideoFile>, prompt: string, status: AnalysisStatus)
    ensures !AnalyzeButtonDisabled(videos, prompt, status) <==> CanAnalyze(videos, prompt) && status != Analyzing
    ensures status == Analyzing ==> AnalyzeButtonDisabled(videos, prompt, status) && UploaderDisabled(status)
  {
  }

  /** The state of the `App` component. */
  class AppState {
    const videos: VideoUploader.VideoList
    var status: AnalysisStatus
    var result: Option<AnalysisResult>
    var promptContext: string
    var language: Language

    ghost predicate Valid()
      reads this, videos
    {
      videos.Valid()
    }

    constructor ()
      ensures Valid() && fresh(videos)
      ensures videos.entries == [] && videos.live == {}
      ensures status == Idle && result == None && promptContext == [] && language == Ja
    {
      videos := new VideoUploader.VideoList();
      status := Idle;
      result := None;
      promptContext := [];
      language := Ja;
    }

    /** A file selection reaches `handleFileChange` only while the uploader is enabled. */
    method SelectFiles(files: seq<MediaFile>) returns (skipped: seq<string>, alerted: bool)
      requires Valid()
      modifies videos
      ensures Valid()
      ensures UploaderDisabled(status) ==> unchanged(videos) && skipped == [] && !alerted
      ensures !UploaderDisabled(status) ==>
        videos.entries == old(videos.entries) + VideoUploader.Admitted(files, old(videos.nextHandle))
        && skipped == VideoUploader.SkippedNames(files) && (alerted <==> skipped != [])
        && videos.nextHandle == old(videos.nextHandle) + |VideoUploader.AcceptedFiles(files)|
    {
      skipped, alerted := [], false;
      if !UploaderDisabled(status) {
        skipped, alerted := videos.HandleFileChange(files);
      }
    }

    /** A remove button reaches `removeVideo` only while the uploader is enabled. */
    method RemoveAt(index: nat)
      requires Valid() && index < |videos.entries|
      modifies videos
      ensures Valid()
      ensures UploaderDisabled(status) ==> unchanged(videos)
      ensures !UploaderDisabled(status) ==>
        videos.entries == old(videos.entries[..index] + videos.entries[index + 1..])
        && videos.live == old(videos.live) - {old(videos.entries[index].previewUrl)}
        && videos.nextHandle == old(videos.nextHandle)
    {
      if !UploaderDisabled(status) {
        videos.RemoveVideo(index);
      }
    }

    /** `handleAnalyze`. Without a video or with a blank prompt nothing happens.
        Otherwise the status goes to UPLOADING, then ANALYZING, the request is made
        with the untrimmed prompt and the system prompt of the current language,
        and the run ends COMPLETED with the reply text as the new result, or ERROR
        with the previous result left in place. `shown` lists the statuses set, in order. */
    method HandleAnalyze(apiKey: Option<string>, remote: GeminiService.Request -> GeminiService.Reply,
                         systemPrompts: Language -> string, now: int)
      returns (shown: seq<AnalysisStatus>, sent: Option<GeminiService.Request>)
      modifies this`status, this`result
      ensures unchanged(videos) && promptContext == old(promptContext) && language == old(language)
      ensures !CanAnalyze(old(videos.entries), old(promptContext)) ==>
        shown == [] && sent == None && status == old(status) && result == old(result)
      ensures CanAnalyze(old(videos.entries), old(promptContext)) ==>
        |shown| == 3 && shown[0] == Uploading && shown[1] == Analyzing && shown[2] == status
      ensures CanAnalyze(old(videos.entries), old(promptContext)) && !GeminiService.HasApiKey(apiKey) ==>
        sent == None && status == Error && result == old(result)
      ensures CanAnalyze(old(videos.entries), old(promptContext)) && GeminiService.HasApiKey(apiKey) ==>
        sent == Some(GeminiService.RequestFor(videos.entries, promptContext, systemPrompts(language), HardcodedModel))
        && match remote(sent.value)
           case Replied(text) => status == Completed && result == Some(AnalysisResult(text, now))
           case Failed(_) => status == Error && result == old(result)
    {
      shown, sent := [], None;
      if !CanAnalyze(videos.entries, promptContext) {
        return;
      }
      status := Uploading;
      shown := shown + [status];
      status := Analyzing;
      shown := shown + [status];
      var systemPrompt := systemPrompts(language);
      var outcome;
      sent, outcome := GeminiService.AnalyzeVideo(videos.entries, promptContext, systemPrompt, HardcodedModel, apiKey, remote);
      RecordOutcome(outcome, now);
      shown := shown + [status];
    }

    /** The `try`/`catch` tail of `handleAnalyze`: a returned text becomes the new
        result and the run is COMPLETED; a thrown error sets ERROR and leaves the
        result as it was. */
    method RecordOutcome(outcome: Result<string, GeminiService.ServiceError>, now: int)
      modifies this`status, this`result
      ensures outcome.Ok? ==> status == Completed && result == Some(AnalysisResult(outcome.value, now))
      ensures outcome.Err? ==> status == Error && result == old(result)
    {
      match outcome {
        case Ok(markdown) =>
          result := Some(AnalysisResult(markdown, now));
          status := Completed;
        case Err(_) =>
          status := Error;
      }
    }
  }
}
