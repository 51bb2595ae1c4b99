/** The application's records and enumerations (types.ts), plus the two
    wrapper datatypes the model uses for absent values and thrown errors. */
module Types {

  /** A value that may be absent (JavaScript `null` / `undefined`). */
  datatype Option<+T> = None | Some(value: T)

  /** The outcome of a step that may throw. */
  datatype Result<+T, +E> = Ok(value: T) | Err(error: E)

  /** `AnalysisStatus`: the phase of the current analysis run. */
  datatype AnalysisStatus = Idle | Uploading | Analyzing | Completed | Error

  /** `AnalysisResult`: the report text and the time (ms since the epoch) it arrived. */
  datatype AnalysisResult = AnalysisResult(markdown: string, timestamp: int)

  /** A preview URL handed out by `URL.createObjectURL`; distinct URLs are distinct numbers. */
  type Handle = nat

  /** A browser `File`. The bytes themselves are represented by `encoded`, their
      base64 text as the browser's FileReader produces it. */
  datatype MediaFile = MediaFile(name: string, mimeType: string, size: nat, encoded: string)

  /** `VideoFile`: an admitted file together with its preview URL. */
  datatype VideoFile = VideoFile(file: MediaFile, previewUrl: Handle)

  /** `Language`: the three interface languages. */
  datatype Language = En | Ja | Vi
}
