/** The request side of services/geminiService.ts: the size gate, the conversion
    of a file into an inline request part, the assembly of the ordered part list,
    and the analysis call with its API-key guard. The SDK call itself is a
    parameter: any function from requests to replies. */
module GeminiService {
  import opened Types
  import opened JsString

  /** `MAX_FILE_SIZE_BYTES`: 19 MiB. */
  const MaxFileSizeBytes: nat := 19 * 1024 * 1024

  /** `checkFileSize`: the only admission limit on a file's size. */
  predicate CheckFileSize(f: MediaFile) {
    f.size <= MaxFileSizeBytes
  }

  /** The limit in bytes, and the edge of the gate: exactly 19,922,944 bytes pass,
      one byte more does not. */
  lemma SizeLimitBoundary(f: MediaFile)
    ensures CheckFileSize(f) <==> f.size <= 19_922_944
    ensures f.size == 19_922_944 ==> CheckFileSize(f)
    ensures f.size == 19_922_945 ==> !CheckFileSize(f)
  {
  }

  /** The base64 alphabet, padding included. */
  predicate IsBase64Char(c: char) {
    ('A' <= c <= 'Z') || ('a' <= c <= 'z') || ('0' <= c <= '9') || c == '+' || c == '/' || c == '='
  }

  /** Text that a base64 encoder can produce. */
  predicate IsBase64Text(s: string) {
    forall i :: 0 <= i < |s| ==> IsBase64Char(s[i])
  }

  /** The result of `FileReader.readAsDataURL` for a file: the header
      `data:<type>;base64` and the base64 payload, separated by a comma. */
  function ReadAsDataUrl(f: MediaFile): string {
    "data:" + f.mimeType + ";base64," + f.encoded
  }

  /** `dataUrl.split(',')[1]`: the text between the first comma and the next one,
      or `undefined` (None) when there is no comma at all. */
  function StripDataUrlHeader(dataUrl: string): (payload: Option<string>)
    ensures payload.Some? <==> ',' in dataUrl
    ensures payload.Some? ==>
      var i := IndexOf(dataUrl, ',');
      ',' !in payload.value && StartsWith(dataUrl[i + 1..], payload.value)
      && (i + 1 + |payload.value| == |dataUrl| || dataUrl[i + 1 + |payload.value|] == ',')
  {
    var parts := Split(dataUrl, ',');
    if |parts| > 1 then Some(parts[1]) else None
  }

  /** For a comma-free type and base64 content, stripping the header of the data
      URL yields exactly the encoded content, so no header text reaches the payload. */
  lemma StripHeaderOfDataUrl(f: MediaFile)
    requires ',' !in f.mimeType && IsBase64Text(f.encoded)
    ensures StripDataUrlHeader(ReadAsDataUrl(f)) == Some(f.encoded)
  {
    var header := "data:" + f.mimeType + ";base64";
    assert ',' !in header by {
      forall i | 0 <= i < |header| ensures header[i] != ',' {
        if 5 <= i < 5 + |f.mimeType| {
          assert header[i] == f.mimeType[i - 5];
        }
      }
    }
    assert ',' !in f.encoded by {
      forall i | 0 <= i < |f.encoded| ensures f.encoded[i] != ',' {
        assert IsBase64Char(f.encoded[i]);
      }
    }
    assert Join([header, f.encoded], ',') == ReadAsDataUrl(f);
    SplitJoin([header, f.encoded], ',');
  }

  /** The `inlineData` of a request part. `data` is None where JavaScript would put `undefined`. */
  datatype InlineData = InlineData(data: Option<string>, mimeType: string)

  /** One request part: an inline blob or a text. */
  datatype Part = InlinePart(inlineData: InlineData) | TextPart(text: string)

  /** `fileToGenerativePart`: read the file as a data URL, keep what follows the
      header and label it with the file's declared type, unchanged. */
  function FileToGenerativePart(f: MediaFile): (p: Part)
    ensures p.InlinePart? && p.inlineData.mimeType == f.mimeType
  {
    InlinePart(InlineData(StripDataUrlHeader(ReadAsDataUrl(f)), f.mimeType))
  }

  /** The inline part of a well-formed file carries its whole encoded content. */
  lemma FilePartCarriesContent(f: MediaFile)
    requires ',' !in f.mimeType && IsBase64Text(f.encoded)
    ensures FileToGenerativePart(f) == InlinePart(InlineData(Some(f.encoded), f.mimeType))
  {
    StripHeaderOfDataUrl(f);
  }

  /** `videos.map(v => fileToGenerativePart(v.file))`: one part per video, in order. */
  function VideoParts(videos: seq<VideoFile>): (parts: seq<Part>)
    ensures |parts| == |videos|
    ensures forall i :: 0 <= i < |videos| ==> parts[i] == FileToGenerativePart(videos[i].file)
  {
    if videos == [] then []
    else [FileToGenerativePart(videos[0].file)] + VideoParts(videos[1..])
  }

  /** `[...videoParts, { text: prompt }]`: every video's part in order, then the
      prompt verbatim as the single trailing text part. */
  function Contents(videos: seq<VideoFile>, prompt: string): (parts: seq<Part>)
    ensures |parts| == |videos| + 1
    ensures forall i :: 0 <= i < |videos| ==>
      parts[i].InlinePart? && parts[i] == FileToGenerativePart(videos[i].file)
      && parts[i].inlineData.mimeType == videos[i].file.mimeType
    ensures parts[|videos|] == TextPart(prompt)
  {
    VideoParts(videos) + [TextPart(prompt)]
  }

  /** The sampling temperature of every request. */
  const Temperature: real := 0.4

  datatype GenerationConfig = GenerationConfig(systemInstruction: string, temperature: real)

  /** The argument of `generateContent`. */
  datatype Request = Request(model: string, parts: seq<Part>, config: GenerationConfig)

  /** What the remote service does with a request: answers with a text, or throws. */
  datatype Reply = Replied(text: string) | Failed(reason: string)

  /** The two ways `analyzeVideo` throws. */
  datatype ServiceError = MissingApiKey | RemoteError(reason: string)

  /** `!process.env.API_KEY` is false: the key is set and not empty. */
  predicate HasApiKey(apiKey: Option<string>) {
    apiKey.Some? && apiKey.value != ""
  }

  /** The request `analyzeVideo` sends. */
  function RequestFor(videos: seq<VideoFile>, prompt: string, systemInstruction: string, modelName: string): (req: Request)
    ensures req.model == modelName && req.config.systemInstruction == systemInstruction
    ensures req.config.temperature == 0.4
    ensures |req.parts| == |videos| + 1 && req.parts[|videos|] == TextPart(prompt)
  {
    Request(modelName, Contents(videos, prompt), GenerationConfig(systemInstruction, Temperature))
  }

  /** `analyzeVideo`. Without a key it throws before any file is read or any
      request built (`sent` is None); otherwise it sends `RequestFor(...)` and
      returns the reply's text unmodified, or rethrows the remote failure. */
  method AnalyzeVideo(videos: seq<VideoFile>, prompt: string, systemInstruction: string, modelName: string,
                      apiKey: Option<string>, remote: Request -> Reply)
    returns (sent: Option<Request>, outcome: Result<string, ServiceError>)
    ensures !HasApiKey(apiKey) <==> outcome == Err(MissingApiKey)
    ensures !HasApiKey(apiKey) ==> sent == None
    ensures HasApiKey(apiKey) ==> sent == Some(RequestFor(videos, prompt, systemInstruction, modelName))
    ensures HasApiKey(apiKey) ==>
      match remote(sent.value)
      case Replied(text) => outcome == Ok(text)
      case Failed(reason) => outcome == Err(RemoteError(reason))
  {
    if !HasApiKey(apiKey) {
      return None, Err(MissingApiKey);
    }
    var contents := Contents(videos, prompt);
    var request := Request(modelName, contents, GenerationConfig(systemInstruction, Temperature));
    sent := Some(request);
    var reply := remote(request);
    match reply {
      case Replied(text) => outcome := Ok(text);
      case Failed(reason) => outcome := Err(RemoteError(reason));
    }
  }
}
