/** Joining a video meeting (components/reuniones/join-meeting.tsx): the meeting-id form,
    the lookup among the active meetings, the media-permission outcome, leaving, the
    camera and microphone toggles, and the elapsed-time label. */
module JoinMeeting {
  import opened Wrappers
  import Text

  datatype ActiveMeeting = ActiveMeeting(id: string, title: string, host: string,
                                         participants: nat, startedAtMs: int)

  /** The three meetings in progress, started 15, 5 and 30 minutes before the page loaded. */
  function ActiveMeetings(loadedAtMs: int): (r: seq<ActiveMeeting>)
    ensures |r| == 3
  {
    [ ActiveMeeting("abc123", "Reunión de planificación semanal", "Juan Pérez", 5, loadedAtMs - 15 * 60 * 1000),
      ActiveMeeting("def456", "Revisión de proyecto EcoSoft", "María López", 3, loadedAtMs - 5 * 60 * 1000),
      ActiveMeeting("ghi789", "Capacitación nuevas funcionalidades", "Pedro Sánchez", 8, loadedAtMs - 30 * 60 * 1000) ]
  }

  /** The form schema: a meeting id of at least five characters. */
  predicate MeetingIdValid(meetingId: string) {
    |meetingId| >= 5
  }

  /** Every active meeting can be typed into the form. */
  lemma ActiveIdsPassSchema(loadedAtMs: int)
    ensures forall k :: 0 <= k < 3 ==> MeetingIdValid(ActiveMeetings(loadedAtMs)[k].id)
  {
    var ms := ActiveMeetings(loadedAtMs);
    assert |ms[0].id| == 6 && |ms[1].id| == 6 && |ms[2].id| == 6;
  }

  /** `activeMeetings.find((m) => m.id === meetingId)`: the first meeting with the id. */
  function FindMeeting(meetings: seq<ActiveMeeting>, meetingId: string): (r: Option<ActiveMeeting>)
    ensures r.None? <==> forall k :: 0 <= k < |meetings| ==> meetings[k].id != meetingId
    ensures r.Some? ==> exists k :: 0 <= k < |meetings| && meetings[k] == r.value && r.value.id == meetingId
                                    && forall j :: 0 <= j < k ==> meetings[j].id != meetingId
  {
    if meetings == [] then None
    else if meetings[0].id == meetingId then Some(meetings[0])
    else
      var r := FindMeeting(meetings[1..], meetingId);
      if r.Some? then
        ghost var k :| 0 <= k < |meetings[1..]| && meetings[1..][k] == r.value && r.value.id == meetingId
                       && forall j :: 0 <= j < k ==> meetings[1..][j].id != meetingId;
        assert meetings[k + 1] == r.value;
        r
      else r
  }

  /** `Math.floor(diffMs / 60000)`: whole minutes elapsed, rounded down (also for a start
      time in the future). */
  function Minutes(startMs: int, nowMs: int): (m: int)
    ensures m * 60000 <= nowMs - startMs < m * 60000 + 60000
  {
    (nowMs - startMs) / 60000
  }

  /** Hours and remaining minutes of a duration of at least an hour. */
  function HoursAndMinutes(mins: nat): (hm: (nat, nat))
    ensures 60 * hm.0 + hm.1 == mins && hm.1 < 60
  {
    (mins / 60, mins % 60)
  }

  /** `formatDuration(startTime)`: "<m> min" under an hour, "<h>h <m>m" from an hour on. */
  function FormatDuration(startMs: int, nowMs: int): string {
    var mins := Minutes(startMs, nowMs);
    if mins < 60 then Text.IntToString(mins) + " min"
    else
      var hm := HoursAndMinutes(mins);
      Text.NatToString(hm.0) + "h " + Text.NatToString(hm.1) + "m"
  }

  /** Under an hour the label is the minute count followed by " min", and reading the
      number back gives the minutes elapsed. */
  lemma ShortDurationReadsBack(startMs: int, nowMs: int)
    requires 0 <= Minutes(startMs, nowMs) < 60
    ensures var r := FormatDuration(startMs, nowMs);
            var digits := Text.BeforeFirst(r, ' ');
            && r == digits + " min"
            && (forall i :: 0 <= i < |digits| ==> Text.IsDigit(digits[i]))
            && Text.DigitsValue(digits) == Minutes(startMs, nowMs)
  {
    var mins := Minutes(startMs, nowMs);
    var digits := Text.NatToString(mins);
    assert ' ' !in digits by {
      forall i | 0 <= i < |digits| ensures digits[i] != ' ' {
        assert Text.IsDigit(digits[i]);
      }
    }
    assert FormatDuration(startMs, nowMs) == digits + [' '] + "min";
    Text.BeforeFirstOfStem(digits, ' ', "min");
    Text.DigitsValueOfNatToString(mins);
  }

  /** From an hour on, the hours before "h" and the minutes before the final "m" read back
      to the minutes elapsed, with fewer than 60 left over. */
  lemma LongDurationReadsBack(startMs: int, nowMs: int)
    requires Minutes(startMs, nowMs) >= 60
    ensures var r := FormatDuration(startMs, nowMs);
            var hours := Text.BeforeFirst(r, 'h');
            var minutes := Text.BeforeFirst(Text.AfterLast(r, ' '), 'm');
            && (forall i :: 0 <= i < |hours| ==> Text.IsDigit(hours[i]))
            && (forall i :: 0 <= i < |minutes| ==> Text.IsDigit(minutes[i]))
            && 60 * Text.DigitsValue(hours) + Text.DigitsValue(minutes) == Minutes(startMs, nowMs)
            && Text.DigitsValue(minutes) < 60
  {
    var hm := HoursAndMinutes(Minutes(startMs, nowMs));
    var h := Text.NatToString(hm.0);
    var m := Text.NatToString(hm.1);
    assert FormatDuration(startMs, nowMs) == h + "h " + m + "m";
    HoursBeforeH(h, m);
    MinutesTail(m);
    MinutesBeforeM(h, m);
    Text.DigitsValueOfNatToString(hm.0);
    Text.DigitsValueOfNatToString(hm.1);
  }

  /** In "<h>h <m>m" with digit parts, the text before the first 'h' is h. */
  lemma HoursBeforeH(h: string, m: string)
    requires forall i :: 0 <= i < |h| ==> Text.IsDigit(h[i])
    ensures Text.BeforeFirst(h + "h " + m + "m", 'h') == h
  {
    assert 'h' !in h by {
      forall i | 0 <= i < |h| ensures h[i] != 'h' { assert Text.IsDigit(h[i]); }
    }
    assert h + "h " + m + "m" == h + ['h'] + (" " + m + "m");
    Text.BeforeFirstOfStem(h, 'h', " " + m + "m");
  }

  /** In "<h>h <m>m" with no space or 'm' in the minutes, the text after the last space
      and before the next 'm' is m. */
  lemma MinutesBeforeM(h: string, m: string)
    requires 'm' !in m && ' ' !in m + "m"
    ensures Text.BeforeFirst(Text.AfterLast(h + "h " + m + "m", ' '), 'm') == m
  {
    var head, tail := h + "h", m + "m";
    assert h + "h " + m + "m" == head + [' '] + tail by {
      assert "h " == "h" + [' '];
    }
    LastPieceBeforeM(head, tail, m);
  }

  lemma LastPieceBeforeM(head: string, tail: string, m: string)
    requires ' ' !in tail && 'm' !in m && tail == m + "m"
    ensures Text.BeforeFirst(Text.AfterLast(head + [' '] + tail, ' '), 'm') == m
  {
    Text.AfterLastOfTail(head, ' ', tail);
    assert tail == m + ['m'] + "";
    Text.BeforeFirstOfStem(m, 'm', "");
  }

  lemma MinutesTail(m: string)
    requires forall i :: 0 <= i < |m| ==> Text.IsDigit(m[i])
    ensures 'm' !in m && ' ' !in m + "m"
  {
    forall i | 0 <= i < |m| ensures m[i] != 'm' && m[i] != ' ' { assert Text.IsDigit(m[i]); }
    assert (m + "m")[|m|] == 'm';
  }

  datatype Permission = Granted | Denied | Prompt

  /** How `getUserMedia` answered: a stream, a refusal by the user ("NotAllowedError"), or
      any other failure. */
  datatype MediaOutcome = Stream | NotAllowed | OtherFailure

  /** What `getUserMedia` is asked for: `{video, audio}`. */
  datatype MediaRequest = MediaRequest(video: bool, audio: bool)

  /** How the browser answers a request. The Media Capture and Streams specification
      rejects a request for neither kind with a `TypeError`, which is not a `DOMException`,
      whatever the devices would have said; any other request gets the devices' answer. */
  function Answer(request: MediaRequest, media: MediaOutcome): MediaOutcome {
    if !request.video && !request.audio then OtherFailure else media
  }

  class MeetingRoom {
    const meetings: seq<ActiveMeeting>
    var isJoining: bool
    var inMeeting: bool
    var currentMeeting: Option<ActiveMeeting>
    var cameraEnabled: bool
    var micEnabled: bool
    var cameraPermission: Permission
    var micPermission: Permission
    var meetingIdInput: string
    /** The `getUserMedia` requests made so far. */
    var requests: seq<MediaRequest>
    /** Whether the video element holds a stream (`videoRef.current.srcObject`). */
    var showing: bool
    /** Whether the page keeps a live stream in its own state. The page as written never
        does; the repaired page keeps the last answer here until it is stopped. */
    var held: bool

    constructor (loadedAtMs: int)
      ensures meetings == ActiveMeetings(loadedAtMs)
      ensures !isJoining && !inMeeting && currentMeeting == None
      ensures cameraEnabled && micEnabled && cameraPermission == Prompt && micPermission == Prompt
      ensures meetingIdInput == "" && requests == [] && !showing && !held
    {
      meetings := ActiveMeetings(loadedAtMs);
      isJoining := false;
      inMeeting := false;
      currentMeeting := None;
      cameraEnabled := true;
      micEnabled := true;
      cameraPermission := Prompt;
      micPermission := Prompt;
      meetingIdInput := "";
      requests := [];
      showing := false;
      held := false;
    }

    /** The `<video ref={videoRef}>` element exists only in the meeting view, and there only
        while the camera is on. */
    predicate VideoMounted()
      reads this
    {
      inMeeting && cameraEnabled
    }

    /** The permissions `getUserMedia`'s answer leaves: a stream grants both, a refusal of a
        real request denies both, any other failure keeps them. */
    method Answered(request: MediaRequest, media: MediaOutcome) returns (stream: bool)
      modifies this
      ensures stream <==> media == Stream && (request.video || request.audio)
      ensures stream ==> cameraPermission == Granted && micPermission == Granted
      ensures media == NotAllowed && (request.video || request.audio) ==> cameraPermission == Denied && micPermission == Denied
      ensures !stream && (media != NotAllowed || (!request.video && !request.audio)) ==>
                cameraPermission == old(cameraPermission) && micPermission == old(micPermission)
      ensures requests == old(requests) + [request]
      ensures showing == old(showing) && held == old(held)
      ensures isJoining == old(isJoining) && inMeeting == old(inMeeting) && currentMeeting == old(currentMeeting)
      ensures cameraEnabled == old(cameraEnabled) && micEnabled == old(micEnabled) && meetingIdInput == old(meetingIdInput)
    {
      requests := requests + [request];
      match Answer(request, media)
      case Stream =>
        cameraPermission, micPermission := Granted, Granted;
        stream := true;
      case NotAllowed =>
        cameraPermission, micPermission := Denied, Denied;
        stream := false;
      case OtherFailure =>
        stream := false;
    }

    /** `requestMediaPermissions`, given the camera and microphone flags its closure reads
        and whether the video element is mounted when the answer arrives: asks for
        `{video, audio}`, settles the permissions, and puts a stream in the video element
        only when that element is there and the closure's camera flag is on. True when a
        stream came back. */
    method RequestMediaPermissions(video: bool, audio: bool, mounted: bool, media: MediaOutcome) returns (stream: bool)
      modifies this
      ensures requests == old(requests) + [MediaRequest(video, audio)]
      ensures stream <==> media == Stream && (video || audio)
      ensures stream ==> cameraPermission == Granted && micPermission == Granted
      ensures showing == (old(showing) || (stream && mounted && video))
      ensures held == old(held)
      ensures media == NotAllowed && (video || audio) ==> cameraPermission == Denied && micPermission == Denied
      ensures !stream && (media != NotAllowed || (!video && !audio)) ==>
                cameraPermission == old(cameraPermission) && micPermission == old(micPermission)
      ensures isJoining == old(isJoining) && inMeeting == old(inMeeting) && currentMeeting == old(currentMeeting)
      ensures cameraEnabled == old(cameraEnabled) && micEnabled == old(micEnabled) && meetingIdInput == old(meetingIdInput)
    {
      stream := Answered(MediaRequest(video, audio), media);
      if stream && mounted && video {
        showing := true;
      }
    }

    /** `joinMeeting(meetingId)`: an unknown id does not enter; with the camera or the
        microphone on, a missing stream does not enter either; otherwise the found meeting
        becomes the current one. `isJoining` is false on every exit. The request is made
        from the join form, before `setInMeeting(true)`, so no video element is mounted
        and a stream that comes back is never shown. */
    method Join(meetingId: string, media: MediaOutcome) returns (joined: bool)
      modifies this
      ensures !isJoining
      ensures joined <==> FindMeeting(meetings, meetingId).Some?
                          && (media == Stream || (!old(cameraEnabled) && !old(micEnabled)))
      ensures joined ==> inMeeting && currentMeeting == FindMeeting(meetings, meetingId)
                         && currentMeeting.value.id == meetingId
      ensures !joined ==> inMeeting == old(inMeeting) && currentMeeting == old(currentMeeting)
      ensures FindMeeting(meetings, meetingId).None? ==>
                cameraPermission == old(cameraPermission) && micPermission == old(micPermission)
                && requests == old(requests)
      ensures FindMeeting(meetings, meetingId).Some? ==>
                requests == old(requests) + [MediaRequest(old(cameraEnabled), old(micEnabled))]
      ensures !old(inMeeting) ==> showing == old(showing)
      ensures held == old(held)
      ensures cameraEnabled == old(cameraEnabled) && micEnabled == old(micEnabled) && meetingIdInput == old(meetingIdInput)
    {
      isJoining := true;
      var meeting := FindMeeting(meetings, meetingId);
      if meeting.None? {
        isJoining := false;
        return false;
      }
      var stream := RequestMediaPermissions(cameraEnabled, micEnabled, VideoMounted(), media);
      if !stream && (cameraEnabled || micEnabled) {
        isJoining := false;
        return false;
      }
      currentMeeting := meeting;
      inMeeting := true;
      isJoining := false;
      joined := true;
    }

    /** `joinMeeting` on the repaired page: the same steps, but the answer is kept in the
        page's state (to be put in the video element once it mounts, `AttachEffect`)
        instead of being written to an element that is not there. */
    method JoinIntended(meetingId: string, media: MediaOutcome) returns (joined: bool)
      modifies this
      ensures !isJoining
      ensures joined <==> FindMeeting(meetings, meetingId).Some?
                          && (media == Stream || (!old(cameraEnabled) && !old(micEnabled)))
      ensures joined ==> inMeeting && currentMeeting == FindMeeting(meetings, meetingId)
      ensures joined ==> (held <==> media == Stream && (old(cameraEnabled) || old(micEnabled)))
      ensures FindMeeting(meetings, meetingId).Some? ==>
                requests == old(requests) + [MediaRequest(old(cameraEnabled), old(micEnabled))]
      ensures showing == old(showing)
      ensures cameraEnabled == old(cameraEnabled) && micEnabled == old(micEnabled) && meetingIdInput == old(meetingIdInput)
    {
      isJoining := true;
      var meeting := FindMeeting(meetings, meetingId);
      if meeting.None? {
        isJoining := false;
        return false;
      }
      var stream := Answered(MediaRequest(cameraEnabled, micEnabled), media);
      if !stream && (cameraEnabled || micEnabled) {
        isJoining := false;
        return false;
      }
      held := stream;
      currentMeeting := meeting;
      inMeeting := true;
      isJoining := false;
      joined := true;
    }

    /** The repair's effect, run after every render: a kept stream goes into the video
        element whenever that element is mounted. */
    method AttachEffect()
      modifies this
      ensures showing == (old(showing) || (VideoMounted() && held))
      ensures held == old(held) && requests == old(requests)
      ensures isJoining == old(isJoining) && inMeeting == old(inMeeting) && currentMeeting == old(currentMeeting)
      ensures cameraEnabled == old(cameraEnabled) && micEnabled == old(micEnabled) && meetingIdInput == old(meetingIdInput)
      ensures cameraPermission == old(cameraPermission) && micPermission == old(micPermission)
    {
      if VideoMounted() && held {
        showing := true;
      }
    }

    /** `handleJoinFromList(meetingId)`: fills the form field, then joins. */
    method JoinFromList(meetingId: string, media: MediaOutcome) returns (joined: bool)
      modifies this
      ensures meetingIdInput == meetingId && !isJoining
      ensures joined <==> FindMeeting(meetings, meetingId).Some?
                          && (media == Stream || (!old(cameraEnabled) && !old(micEnabled)))
      ensures joined ==> inMeeting && currentMeeting == FindMeeting(meetings, meetingId)
      ensures !old(inMeeting) ==> showing == old(showing)
    {
      meetingIdInput := meetingId;
      joined := Join(meetingId, media);
    }

    /** `leaveMeeting`: `stopMediaStream`, then out of the meeting, no current meeting,
        form cleared. */
    method Leave()
      modifies this
      ensures !inMeeting && currentMeeting == None && meetingIdInput == "" && !showing && !held
      ensures requests == old(requests)
      ensures isJoining == old(isJoining) && cameraEnabled == old(cameraEnabled) && micEnabled == old(micEnabled)
      ensures cameraPermission == old(cameraPermission) && micPermission == old(micPermission)
    {
      showing, held := false, false;
      inMeeting := false;
      currentMeeting := None;
      meetingIdInput := "";
    }

    /** `toggleCamera`, as written: flips the camera; during a meeting the stream is
        stopped, and switching the camera on asks for media again. By the time the answer
        arrives the new video element is mounted, but the closure still reads the camera
        flag from before the flip: video is not asked for and nothing is put in the
        element. With the microphone off that request asks for nothing and fails. */
    method ToggleCamera(media: MediaOutcome)
      modifies this
      ensures cameraEnabled == !old(cameraEnabled)
      ensures old(inMeeting) ==> !showing
      ensures !old(inMeeting) ==> showing == old(showing)
      ensures held == old(held)
      ensures old(inMeeting) && !old(cameraEnabled) ==> requests == old(requests) + [MediaRequest(false, old(micEnabled))]
      ensures !(old(inMeeting) && !old(cameraEnabled)) ==> requests == old(requests)
      ensures old(inMeeting) && !old(cameraEnabled) && old(micEnabled) && media == Stream ==>
                cameraPermission == Granted && micPermission == Granted
      ensures !(old(inMeeting) && !old(cameraEnabled) && old(micEnabled) && media != OtherFailure) ==>
                cameraPermission == old(cameraPermission) && micPermission == old(micPermission)
      ensures micEnabled == old(micEnabled) && inMeeting == old(inMeeting) && currentMeeting == old(currentMeeting)
      ensures isJoining == old(isJoining) && meetingIdInput == old(meetingIdInput)
    {
      var wasEnabled := cameraEnabled;
      cameraEnabled := !wasEnabled;
      if inMeeting {
        showing := false;
        if !wasEnabled {
          var _ := RequestMediaPermissions(wasEnabled, micEnabled, VideoMounted(), media);
        }
      }
    }

    /** `toggleCamera` on the repaired page: switching off stops the kept stream, switching
        on asks for the camera just switched on and keeps the answer for `AttachEffect`. */
    method ToggleCameraIntended(media: MediaOutcome)
      modifies this
      ensures cameraEnabled == !old(cameraEnabled)
      ensures old(inMeeting) && !old(cameraEnabled) ==>
                requests == old(requests) + [MediaRequest(true, old(micEnabled))] && (held <==> media == Stream)
      ensures old(inMeeting) && old(cameraEnabled) ==> requests == old(requests) && !held
      ensures old(inMeeting) ==> !showing
      ensures !old(inMeeting) ==> requests == old(requests) && showing == old(showing) && held == old(held)
      ensures old(inMeeting) && !old(cameraEnabled) && media == Stream ==>
                cameraPermission == Granted && micPermission == Granted
      ensures micEnabled == old(micEnabled) && inMeeting == old(inMeeting) && currentMeeting == old(currentMeeting)
      ensures isJoining == old(isJoining) && meetingIdInput == old(meetingIdInput)
    {
      var wasEnabled := cameraEnabled;
      cameraEnabled := !wasEnabled;
      if inMeeting {
        showing, held := false, false;
        if !wasEnabled {
          held := Answered(MediaRequest(true, micEnabled), media);
        }
      }
    }

    /** `toggleMic`: flips the microphone and nothing else of the page's state. */
    method ToggleMic()
      modifies this
      ensures micEnabled == !old(micEnabled)
      ensures cameraEnabled == old(cameraEnabled) && inMeeting == old(inMeeting) && currentMeeting == old(currentMeeting)
      ensures cameraPermission == old(cameraPermission) && micPermission == old(micPermission)
      ensures isJoining == old(isJoining) && meetingIdInput == old(meetingIdInput)
      ensures requests == old(requests) && showing == old(showing) && held == old(held)
    {
      micEnabled := !micEnabled;
    }
  }

  /** The room as written: join a listed meeting with camera and microphone on, switch the
      camera off and then on again. The join succeeds with a stream, yet the video element
      is empty right after it; and whatever the browser answers the second time, it ends
      empty and no request after the join asked for video. */
  method CameraBackOn(loadedAtMs: int, media: MediaOutcome)
    returns (joined: bool, shownAfterJoin: bool, showing: bool, lastRequest: MediaRequest)
    ensures joined && !shownAfterJoin
    ensures !showing && !lastRequest.video
  {
    var room := new MeetingRoom(loadedAtMs);
    joined := room.Join("abc123", Stream);
    shownAfterJoin := room.showing;
    room.ToggleCamera(OtherFailure);
    room.ToggleCamera(media);
    showing := room.showing;
    lastRequest := room.requests[|room.requests| - 1];
  }

  /** The same steps on the repaired page, with the effect run after each step: the video
      shows after the join, and after switching the camera back on it shows exactly when
      the browser hands over a stream. */
  method CameraBackOnIntended(loadedAtMs: int, media: MediaOutcome)
    returns (joined: bool, shownAfterJoin: bool, showing: bool, lastRequest: MediaRequest)
    ensures joined && shownAfterJoin
    ensures showing <==> media == Stream
    ensures lastRequest == MediaRequest(true, true)
  {
    var room := new MeetingRoom(loadedAtMs);
    joined := room.JoinIntended("abc123", Stream);
    room.AttachEffect();
    shownAfterJoin := room.showing;
    room.ToggleCameraIntended(OtherFailure);
    room.AttachEffect();
    room.ToggleCameraIntended(media);
    room.AttachEffect();
    showing := room.showing;
    lastRequest := room.requests[|room.requests| - 1];
  }
}
