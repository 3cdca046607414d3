/** The camera overlay: it asks for the rear camera when mounted, holds the
    granted stream, and releases it (stops every track, drops the reference)
    on capture, on the close button and on teardown. The platform parts
    (the permission prompt, the video element, the canvas and its JPEG
    encoder) are objects and parameters. A ghost event log records the
    callbacks and every track stop, in order. */
module Camera {
  import opened Wrappers

  const UnsupportedMessage := "Trình duyệt không hỗ trợ truy cập camera."
  const PermissionMessage := "Không thể truy cập camera. Vui lòng cấp quyền và thử lại."

  datatype TrackState = Live | Ended

  /** One track of a media stream; `stop` ends it. */
  class MediaStreamTrack {
    var readyState: TrackState

    constructor ()
      ensures readyState == Live
    {
      readyState := Live;
    }

    method Stop()
      modifies this
      ensures readyState == Ended
    {
      readyState := Ended;
    }
  }

  /** A media stream and its tracks, as `getTracks` lists them. */
  class MediaStream {
    const tracks: seq<MediaStreamTrack>

    constructor (tracks: seq<MediaStreamTrack>)
      ensures this.tracks == tracks
    {
      this.tracks := tracks;
    }
  }

  /** The `<video>` element: the current frame size and the stream it plays. */
  class VideoElement {
    var videoWidth: nat
    var videoHeight: nat
    var srcObject: MediaStream?

    constructor (width: nat, height: nat)
      ensures videoWidth == width && videoHeight == height && srcObject == null
    {
      videoWidth, videoHeight, srcObject := width, height, null;
    }
  }

  /** The hidden `<canvas>`; `hasContext2d` says whether `getContext('2d')`
      returns a context. */
  class CanvasElement {
    var width: nat
    var height: nat
    const hasContext2d: bool

    constructor (hasContext2d: bool)
      ensures this.hasContext2d == hasContext2d
    {
      this.hasContext2d := hasContext2d;
      width, height := 300, 150;
    }
  }

  /** How the camera request ends: no media-device support, the grant
      rejected, or a granted stream. */
  datatype GrantOutcome = Unsupported | Rejected | Granted(stream: MediaStream)

  /** What the view did, in order. */
  datatype Event = Delivered(dataUrl: string) | Stopped(track: MediaStreamTrack) | CloseRequested

  /** The stop events of a release, one per track, in track order. */
  ghost function StopEvents(tracks: seq<MediaStreamTrack>): (events: seq<Event>)
    ensures |events| == |tracks|
    ensures forall i :: 0 <= i < |tracks| ==> events[i] == Stopped(tracks[i])
  {
    if tracks == [] then [] else StopEvents(tracks[..|tracks| - 1]) + [Stopped(tracks[|tracks| - 1])]
  }

  /** The stop events a cleanup produces with `stream` held. */
  ghost function Released(stream: MediaStream?): seq<Event>
  {
    if stream == null then [] else StopEvents(stream.tracks)
  }

  /** How often `track` was stopped in a log. */
  ghost function StopCount(events: seq<Event>, track: MediaStreamTrack): nat
  {
    if events == [] then 0
    else StopCount(events[..|events| - 1], track) + (if events[|events| - 1] == Stopped(track) then 1 else 0)
  }

  lemma {:induction false} StopCountAppend(e1: seq<Event>, e2: seq<Event>, track: MediaStreamTrack)
    ensures StopCount(e1 + e2, track) == StopCount(e1, track) + StopCount(e2, track)
    decreases |e2|
  {
    if e2 == [] {
      assert e1 + e2 == e1;
    } else {
      assert (e1 + e2)[..|e1 + e2| - 1] == e1 + e2[..|e2| - 1];
      StopCountAppend(e1, e2[..|e2| - 1], track);
    }
  }

  predicate Distinct(tracks: seq<MediaStreamTrack>)
  {
    forall i, j :: 0 <= i < j < |tracks| ==> tracks[i] != tracks[j]
  }

  /** A release of distinct tracks stops each of them exactly once and
      nothing else. */
  lemma {:induction false} ReleaseStopsEachTrackOnce(tracks: seq<MediaStreamTrack>, track: MediaStreamTrack)
    requires Distinct(tracks)
    ensures StopCount(StopEvents(tracks), track) == if track in tracks then 1 else 0
    decreases |tracks|
  {
    if tracks != [] {
      var init := tracks[..|tracks| - 1];
      var last := tracks[|tracks| - 1];
      assert StopEvents(tracks)[..|tracks| - 1] == StopEvents(init);
      ReleaseStopsEachTrackOnce(init, track);
      assert tracks == init + [last];
      assert last !in init;
    }
  }

  class CameraView {
    /** `videoRef.current` and `canvasRef.current`. */
    const videoRef: VideoElement?
    const canvasRef: CanvasElement?
    /** The `error` state. */
    var error: Option<string>
    /** `streamRef.current`. */
    var streamRef: MediaStream?
    ghost var events: seq<Event>

    /** The tracks the view may stop: those of the stream it holds. */
    ghost function Held(): set<object>
      reads this
    {
      if streamRef == null then {} else set t | t in streamRef.tracks :: t
    }

    /** Mounting: no stream, no error, nothing done yet. */
    constructor (video: VideoElement?, canvas: CanvasElement?)
      ensures videoRef == video && canvasRef == canvas
      ensures streamRef == null && error == None && events == []
    {
      videoRef, canvasRef := video, canvas;
      streamRef, error := null, None;
      events := [];
    }

    /** `cleanupCamera`: with a stream held, stop each of its tracks in order
      and drop the reference; with none held, do nothing. */
    method CleanupCamera()
      modifies this, Held()
      ensures streamRef == null && error == old(error)
      ensures old(streamRef) != null ==> forall t :: t in old(streamRef).tracks ==> t.readyState == Ended
      ensures events == old(events) + Released(old(streamRef))
    {
      if streamRef != null {
        var tracks := streamRef.tracks;
        assert forall t :: t in tracks ==> t in Held();
        var i := 0;
        while i < |tracks|
          invariant 0 <= i <= |tracks|
          invariant streamRef == old(streamRef) && error == old(error) && tracks == streamRef.tracks
          invariant forall j :: 0 <= j < i ==> tracks[j].readyState == Ended
          invariant events == old(events) + StopEvents(tracks[..i])
        {
          tracks[i].Stop();
          assert tracks[..i + 1][..i] == tracks[..i];
          events := events + [Stopped(tracks[i])];
          i := i + 1;
        }
        assert tracks[..i] == tracks;
        streamRef := null;
      }
    }

    /** `startCamera`, run once on mount, with `grant` standing for how the
      request for the rear camera ended. Only a grant stores a stream. */
    method StartCamera(grant: GrantOutcome)
      modifies this, videoRef
      ensures events == old(events)
      ensures grant.Granted? ==> streamRef == grant.stream && error == old(error)
      ensures grant.Granted? && videoRef != null ==> videoRef.srcObject == grant.stream
      ensures grant.Unsupported? ==> streamRef == old(streamRef) && error == Some(UnsupportedMessage)
      ensures grant.Rejected? ==> streamRef == old(streamRef) && error == Some(PermissionMessage)
      ensures videoRef != null ==> videoRef.videoWidth == old(videoRef.videoWidth)
      ensures videoRef != null ==> videoRef.videoHeight == old(videoRef.videoHeight)
      ensures videoRef != null && !grant.Granted? ==> videoRef.srcObject == old(videoRef.srcObject)
    {
      match grant {
        case Granted(stream) =>
          streamRef := stream;
          if videoRef != null {
            videoRef.srcObject := stream;
          }
        case Unsupported =>
          error := Some(UnsupportedMessage);
        case Rejected =>
          error := Some(PermissionMessage);
      }
    }

    /** `handleCapture`, with `frameDataUrl` standing for what the canvas
      encodes as JPEG. Without the video or the canvas nothing happens;
      with both, the canvas takes the frame size; only with a 2D context as
      well is the data URL delivered and then the stream released. */
    method HandleCapture(frameDataUrl: string)
      modifies this, canvasRef, Held()
      ensures error == old(error)
      ensures videoRef != null && canvasRef != null ==>
        canvasRef.width == videoRef.videoWidth && canvasRef.height == videoRef.videoHeight
      ensures videoRef == null && canvasRef != null ==>
        canvasRef.width == old(canvasRef.width) && canvasRef.height == old(canvasRef.height)
      ensures videoRef != null && canvasRef != null && canvasRef.hasContext2d ==>
        && streamRef == null
        && events == old(events) + [Delivered(frameDataUrl)] + Released(old(streamRef))
        && (old(streamRef) != null ==> forall t :: t in old(streamRef).tracks ==> t.readyState == Ended)
      ensures !(videoRef != null && canvasRef != null && canvasRef.hasContext2d) ==>
        streamRef == old(streamRef) && events == old(events)
      ensures !(videoRef != null && canvasRef != null && canvasRef.hasContext2d) ==>
        old(streamRef) != null ==> forall t :: t in old(streamRef).tracks ==> t.readyState == old(t.readyState)
    {
      if videoRef != null && canvasRef != null {
        canvasRef.width := videoRef.videoWidth;
        canvasRef.height := videoRef.videoHeight;
        if canvasRef.hasContext2d {
          events := events + [Delivered(frameDataUrl)];
          CleanupCamera();
        }
      }
    }

    /** The close button: release, then `onClose`. */
    method HandleClose()
      modifies this, Held()
      ensures streamRef == null && error == old(error)
      ensures old(streamRef) != null ==> forall t :: t in old(streamRef).tracks ==> t.readyState == Ended
      ensures events == old(events) + Released(old(streamRef)) + [CloseRequested]
    {
      CleanupCamera();
      events := events + [CloseRequested];
    }

    /** Teardown: the effect's cleanup function. */
    method Unmount()
      modifies this, Held()
      ensures streamRef == null && error == old(error)
      ensures old(streamRef) != null ==> forall t :: t in old(streamRef).tracks ==> t.readyState == Ended
      ensures events == old(events) + Released(old(streamRef))
    {
      CleanupCamera();
    }
  }

  /** How a camera session ends: a capture, the close button, or a teardown
      of the page without either. */
  datatype Exit = Capture(frameDataUrl: string) | Close | Teardown

  /** One open/close cycle of the overlay: mount, the camera request, the
      exit, and then the unmount. After a close, or a capture that delivers a
      frame, the page removes the overlay at once; after a capture that
      delivers nothing the overlay stays, and the unmount stands for its later
      teardown. Whatever the exit, each granted track ends up stopped exactly
      once: when the exit has already released the stream, the unmount's
      cleanup finds nothing to release. */
  method Session(video: VideoElement?, canvas: CanvasElement?, grant: GrantOutcome, exit: Exit)
    returns (view: CameraView)
    requires grant.Granted? ==> Distinct(grant.stream.tracks)
    modifies video, canvas, if grant.Granted? then set t | t in grant.stream.tracks :: t else {}
    ensures view.streamRef == null
    ensures grant.Granted? ==> forall t :: t in grant.stream.tracks ==> t.readyState == Ended
    ensures forall t: MediaStreamTrack ::
      StopCount(view.events, t) == if grant.Granted? && t in grant.stream.tracks then 1 else 0
    ensures grant.Rejected? ==> view.error == Some(PermissionMessage)
    ensures grant.Unsupported? ==> view.error == Some(UnsupportedMessage)
  {
    view := new CameraView(video, canvas);
    view.StartCamera(grant);
    ghost var released := Released(view.streamRef);
    match exit {
      case Capture(url) => view.HandleCapture(url);
      case Close => view.HandleClose();
      case Teardown =>
    }
    ghost var afterExit := view.events;
    view.Unmount();
    // Whatever the exit, the log is one release framed by events that stop nothing.
    ghost var before, after: seq<Event>;
    if exit.Capture? && video != null && canvas != null && canvas.hasContext2d {
      before, after := [Delivered(exit.frameDataUrl)], [];
    } else if exit.Close? {
      before, after := [], [CloseRequested];
    } else {
      before, after := [], [];
    }
    assert view.events == before + released + after;
    forall t: MediaStreamTrack
      ensures StopCount(view.events, t) == if grant.Granted? && t in grant.stream.tracks then 1 else 0
    {
      StopCountAppend(before + released, after, t);
      StopCountAppend(before, released, t);
      assert StopCount(before, t) == 0 && StopCount(after, t) == 0;
      if grant.Granted? {
        ReleaseStopsEachTrackOnce(grant.stream.tracks, t);
      }
    }
  }
}
