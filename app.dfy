/** The page controller: five state fields and the handlers that change them,
    plus what the page shows for a given state. The analysis call is not run
    here: its outcome is given to CompleteAnalyze, which stands for the code
    after the `await`. */
module App {
  import opened Wrappers
  import opened SafetyTypes
  import ResultDisplay
  import GeminiService

  const NoImageMessage := "Vui lòng chọn hoặc chụp ảnh trước khi phân tích."
  const UnexpectedErrorMessage := "Đã xảy ra lỗi không mong muốn."
  const AnalyzeLabel := "Phân tích ảnh"
  const AnalyzingLabel := "Đang phân tích..."

  /** JavaScript truthiness of a `string | null` state value: null and the
      empty string both count as absent. */
  predicate Present(s: Option<string>)
  {
    s.Some? && s.value != ""
  }

  /** `err.message || fallback`: an empty or missing message is replaced. */
  function ShownErrorMessage(message: string): (shown: string)
    ensures shown != ""
    ensures message != "" ==> shown == message
    ensures message == "" ==> shown == UnexpectedErrorMessage
  {
    if message != "" then message else UnexpectedErrorMessage
  }

  /** A failure of the analysis service is shown with the service's own fixed
      message. */
  lemma ServiceFailureShownVerbatim<V>(
    dataUrl: string, generate: GeminiService.Sdk, parse: string -> Option<V>)
    requires GeminiService.AnalyzeImageForSafety(dataUrl, generate, parse).Failure?
    ensures ShownErrorMessage(GeminiService.AnalyzeImageForSafety(dataUrl, generate, parse).error)
            == GeminiService.AnalysisFailedMessage
  {
  }

  /** The invariant every handler keeps: while loading there is an image and
      neither a result nor an error; a result is only ever held beside an
      image, and never beside an error. */
  predicate Consistent(imageSrc: Option<string>, analysisResult: Option<AnalysisResult>,
                       isLoading: bool, error: Option<string>)
  {
    && (isLoading ==> Present(imageSrc) && analysisResult.None? && error.None?)
    && (analysisResult.Some? ==> Present(imageSrc) && error.None?)
  }

  /** The left-hand panel: the source chooser, or the image with its buttons. */
  datatype Panel = Chooser | Preview(image: string, analyzeEnabled: bool, analyzeLabel: string)

  /** What the page shows. */
  datatype Screen = Screen(
    cameraOverlay: bool,
    panel: Panel,
    errorBanner: Option<string>,
    loader: bool,
    report: Option<seq<ResultDisplay.Row>>)

  /** The page for a state: the overlay follows the camera flag, the chooser
      stands in for a missing image, the analyze button is disabled and
      relabelled while loading, an empty error is not shown, and a held
      result is shown as its report. */
  function Render(imageSrc: Option<string>, analysisResult: Option<AnalysisResult>,
                  isLoading: bool, error: Option<string>, isCameraOpen: bool): (s: Screen)
    ensures s.cameraOverlay == isCameraOpen && s.loader == isLoading
    ensures s.panel == Chooser <==> !Present(imageSrc)
    ensures s.panel.Preview? ==>
      && Some(s.panel.image) == imageSrc
      && (s.panel.analyzeEnabled <==> !isLoading)
      && (s.panel.analyzeLabel == AnalyzingLabel <==> isLoading)
    ensures s.errorBanner.Some? <==> Present(error)
    ensures s.errorBanner.Some? ==> s.errorBanner == error
    ensures s.report.Some? <==> analysisResult.Some?
    ensures analysisResult.Some? ==> s.report == Some(ResultDisplay.AnalysisResultDisplay(analysisResult.value))
  {
    Screen(
      isCameraOpen,
      if Present(imageSrc) then
        Preview(imageSrc.value, !isLoading, if isLoading then AnalyzingLabel else AnalyzeLabel)
      else Chooser,
      if Present(error) then error else None,
      isLoading,
      match analysisResult
      case Some(r) => Some(ResultDisplay.AnalysisResultDisplay(r))
      case None => None)
  }

  /** The chooser is shown iff there is no image, the loader iff loading, the
      report iff a result is held; in a consistent state at most one of loader,
      report and error banner is on screen, and the analyze button is disabled
      exactly while loading. */
  lemma ScreenModes(imageSrc: Option<string>, analysisResult: Option<AnalysisResult>,
                    isLoading: bool, error: Option<string>, isCameraOpen: bool)
    requires Consistent(imageSrc, analysisResult, isLoading, error)
    ensures var s := Render(imageSrc, analysisResult, isLoading, error, isCameraOpen);
      && (s.panel == Chooser <==> !Present(imageSrc))
      && (s.loader <==> isLoading)
      && (s.report.Some? <==> analysisResult.Some?)
      && (s.errorBanner.Some? <==> Present(error))
      && (s.loader ==> s.panel.Preview? && !s.panel.analyzeEnabled && s.report.None? && s.errorBanner.None?)
      && (s.report.Some? ==> !s.loader && s.errorBanner.None? && s.panel.Preview?)
      && (s.panel.Preview? ==> (s.panel.analyzeEnabled <==> !isLoading))
      && (s.cameraOverlay <==> isCameraOpen)
  {
  }

  class AppController {
    var imageSrc: Option<string>
    var analysisResult: Option<AnalysisResult>
    var isLoading: bool
    var error: Option<string>
    var isCameraOpen: bool

    ghost predicate Valid()
      reads this
    {
      Consistent(imageSrc, analysisResult, isLoading, error)
    }

    /** The initial state: nothing chosen, nothing shown. */
    constructor ()
      ensures Valid()
      ensures imageSrc == None && analysisResult == None && !isLoading && error == None && !isCameraOpen
    {
      imageSrc, analysisResult, isLoading, error, isCameraOpen := None, None, false, None, false;
    }

    /** `handleImageUpload`; `dataUrl` is what the file reader produced for the
      first selected file, None when no file was selected. The file input is
      part of the chooser, which is not on screen while loading. */
    method HandleImageUpload(dataUrl: Option<string>)
      requires Valid() && !isLoading
      modifies this
      ensures Valid()
      ensures dataUrl.None? ==>
        imageSrc == old(imageSrc) && analysisResult == old(analysisResult) && error == old(error)
      ensures dataUrl.Some? ==> imageSrc == dataUrl && analysisResult == None && error == None
      ensures isLoading == old(isLoading) && isCameraOpen == old(isCameraOpen)
    {
      if dataUrl.Some? {
        imageSrc := dataUrl;
        analysisResult := None;
        error := None;
      }
    }

    /** `handleCapture`, the camera view's `onCapture`. The camera is opened
      from the chooser, which is not on screen while loading. */
    method HandleCapture(imageDataUrl: string)
      requires Valid() && !isLoading
      modifies this
      ensures Valid()
      ensures imageSrc == Some(imageDataUrl) && analysisResult == None && error == None
      ensures !isCameraOpen && !isLoading
    {
      imageSrc := Some(imageDataUrl);
      analysisResult := None;
      error := None;
      isCameraOpen := false;
    }

    /** The "use camera" button. */
    method OpenCamera()
      modifies this
      ensures isCameraOpen
      ensures imageSrc == old(imageSrc) && analysisResult == old(analysisResult)
      ensures isLoading == old(isLoading) && error == old(error)
    {
      isCameraOpen := true;
    }

    /** The camera view's `onClose`. */
    method CloseCamera()
      modifies this
      ensures !isCameraOpen
      ensures imageSrc == old(imageSrc) && analysisResult == old(analysisResult)
      ensures isLoading == old(isLoading) && error == old(error)
    {
      isCameraOpen := false;
    }

    /** `handleAnalyze` up to the `await`. Returns the image handed to the
      analysis service, or None when no call is made. */
    method BeginAnalyze() returns (request: Option<string>)
      requires Valid() && !isLoading
      modifies this
      ensures Valid()
      ensures imageSrc == old(imageSrc) && isCameraOpen == old(isCameraOpen)
      ensures !Present(old(imageSrc)) ==>
        && request == None
        && error == Some(NoImageMessage)
        && analysisResult == old(analysisResult) && !isLoading
      ensures Present(old(imageSrc)) ==>
        && request == old(imageSrc)
        && isLoading && analysisResult == None && error == None
    {
      if !Present(imageSrc) {
        error := Some(NoImageMessage);
        return None;
      }
      isLoading := true;
      analysisResult := None;
      error := None;
      request := imageSrc;
    }

    /** `handleAnalyze` after the `await`: the try, catch and finally.
      `outcome` is what the service returned, `Success(None)` standing for a
      reply that parsed to JSON `null`: the cast lets it through and it is
      stored as "no result". */
    method CompleteAnalyze(outcome: Result<Option<AnalysisResult>, string>)
      requires Valid() && isLoading
      modifies this
      ensures Valid()
      ensures !isLoading
      ensures imageSrc == old(imageSrc) && isCameraOpen == old(isCameraOpen)
      ensures outcome.Success? ==> analysisResult == outcome.value && error == None
      ensures outcome.Failure? ==> error == Some(ShownErrorMessage(outcome.error)) && analysisResult == None
      ensures outcome != Success(None) ==> analysisResult.Some? != error.Some?
    {
      match outcome {
        case Success(result) =>
          analysisResult := result;
        case Failure(message) =>
          error := Some(ShownErrorMessage(message));
      }
      isLoading := false;
    }

    /** The whole of `handleAnalyze`, with `outcome` as the service's answer.
      The analyze button is disabled while loading, so it is never entered
      then. */
    method HandleAnalyze(outcome: Result<Option<AnalysisResult>, string>) returns (request: Option<string>)
      requires Valid() && !isLoading
      modifies this
      ensures Valid()
      ensures !isLoading
      ensures imageSrc == old(imageSrc) && isCameraOpen == old(isCameraOpen)
      ensures request.Some? <==> Present(old(imageSrc))
      ensures request.Some? ==> request == old(imageSrc)
      ensures request.None? ==> error == Some(NoImageMessage) && analysisResult == old(analysisResult)
      ensures request.Some? && outcome.Success? ==> analysisResult == outcome.value && error == None
      ensures request.Some? && outcome.Failure? ==>
        error == Some(ShownErrorMessage(outcome.error)) && analysisResult == None
      ensures request.Some? && outcome != Success(None) ==> analysisResult.Some? != error.Some?
    {
      request := BeginAnalyze();
      if request.Some? {
        CompleteAnalyze(outcome);
      }
    }

    /** `resetState`, the "choose another image" button. */
    method ResetState()
      modifies this
      ensures Valid()
      ensures imageSrc == None && analysisResult == None && error == None && !isLoading
      ensures isCameraOpen == old(isCameraOpen)
    {
      imageSrc := None;
      analysisResult := None;
      error := None;
      isLoading := false;
    }
  }
}
