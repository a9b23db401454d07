/**
 * The `WebcamCapture` component: a label the operator types, a capture timer that
 * fires `capture` every few hundred milliseconds while running, and two counters of
 * uploads started and completed.
 *
 * The state and the four handlers are first given as pure transitions on a `State`
 * value, with the page's guards (a disabled button, a disabled input, a timer that
 * only fires while set) composed into `Step`; the class `WebcamCapture` then holds
 * the same fields and updates them in place, each method proved to perform its
 * transition.
 *
 * `capture` is asynchronous: it counts an upload as started, awaits the store, then
 * counts it as completed. Each call is split into its two halves, and the uploads
 * awaiting the store are kept in `inFlight`, so completions may interleave freely
 * with later events.
 */
module Capture {
  import opened Wrappers
  import opened Strings
  import opened S3Upload

  /** What `setInterval` returns: a positive id, so a running timer is truthy. */
  type IntervalId = n: int | n > 0 witness 1

  const Waiting: string := "Waiting for capture..."

  /** One upload awaiting the store: the label it was captured under and its request. */
  datatype PendingUpload = PendingUpload(labelText: string, request: UploadParams)

  /**
   * The component state. `captureInterval` is None while no timer is set (`null`
   * initially, `undefined` after `clearInterval`, both falsy) and `Some(handle)`
   * while one runs;
   * `labelText` is the source's `label` field.
   */
  datatype State = State(
    labelText: string,
    captureInterval: Option<IntervalId>,
    totalUploads: nat,
    uploadsCompleted: nat,
    inFlight: seq<PendingUpload>)

  const Init: State := State("", None, 0, 0, [])

  predicate Capturing(s: State) {
    s.captureInterval.Some?
  }

  /** `handleChange` for the `label` input: the label takes the event's value. */
  function Changed(s: State, value: string): State
  {
    s.(labelText := value)
  }

  /** `toggleCapture`: a running timer is cleared along with the label, else a timer is set. */
  function Toggled(s: State, handle: IntervalId): State
  {
    if Capturing(s) then s.(labelText := "", captureInterval := None)
    else s.(captureInterval := Some(handle))
  }

  /** First half of `capture`: one more upload started, its request built from the label. */
  function CaptureBegun(s: State, imageSrc: string, id: string): State
  {
    s.(totalUploads := s.totalUploads + 1,
       inFlight := s.inFlight + [PendingUpload(s.labelText, UploadParamsOf(imageSrc, "public/" + s.labelText, id))])
  }

  /**
   * Second half of `capture`: pending upload `index` settles. Only a successful upload
   * reaches the line that counts it; a rejected one ends `capture` by throwing.
   */
  function CaptureSettled(s: State, index: nat, succeeded: bool): State
    requires index < |s.inFlight|
  {
    s.(uploadsCompleted := if succeeded then s.uploadsCompleted + 1 else s.uploadsCompleted,
       inFlight := s.inFlight[..index] + s.inFlight[index + 1..])
  }

  /** What the page lets happen next. */
  datatype Event =
    | LabelInput(value: string)                 // typing into the `label` input
    | ButtonClick(handle: IntervalId)           // the Begin/Stop button; `handle` is what `setInterval` would return
    | TimerTick(imageSrc: string, id: string)   // the timer fires: a screenshot and a fresh uuid
    | UploadSettled(index: nat, succeeded: bool)

  /**
   * One event with the page's guards: the input is disabled while capturing, the
   * button is disabled while the label is empty, the timer fires only while set, and
   * only an upload that is in flight can settle.
   */
  function Step(s: State, e: Event): (r: State)
    ensures r.totalUploads >= s.totalUploads && r.uploadsCompleted >= s.uploadsCompleted
    ensures CountersValid(s) ==> CountersValid(r)
    ensures Capturing(s) && Capturing(r) ==> r.labelText == s.labelText
    ensures !Capturing(s) && Capturing(r) ==> e.ButtonClick? && s.labelText != ""
  {
    match e
    case LabelInput(value) => if Capturing(s) then s else Changed(s, value)
    case ButtonClick(handle) => if s.labelText == "" then s else Toggled(s, handle)
    case TimerTick(imageSrc, id) => if Capturing(s) then CaptureBegun(s, imageSrc, id) else s
    case UploadSettled(index, succeeded) =>
      if index < |s.inFlight| then CaptureSettled(s, index, succeeded) else s
  }

  /** The state after the events, one after the other; both counters only ever grow. */
  function Run(s: State, events: seq<Event>): (r: State)
    ensures r.totalUploads >= s.totalUploads && r.uploadsCompleted >= s.uploadsCompleted
    ensures CountersValid(s) ==> CountersValid(r)
    decreases |events|
  {
    if |events| == 0 then s else Run(Step(s, events[0]), events[1..])
  }

  /** The key an upload captured under `labelText` has: `public/<labelText>/...`. */
  predicate KeyUnderLabel(u: PendingUpload) {
    var prefix := "public/" + u.labelText + "/";
    |u.request.key| > |prefix| && u.request.key[..|prefix|] == prefix
  }

  /** Every upload is either completed, failed or still in flight, so never more complete than start. */
  predicate CountersValid(s: State) {
    s.uploadsCompleted + |s.inFlight| <= s.totalUploads
  }

  /** What holds in every state the page can reach. */
  predicate Inv(s: State) {
    && CountersValid(s)
    && (Capturing(s) ==> s.labelText != "")
    && forall i :: 0 <= i < |s.inFlight| ==> s.inFlight[i].labelText != "" && KeyUnderLabel(s.inFlight[i])
  }

  /** A key that starts with `pathPrefix` followed by `/` starts with `pathPrefix + "/"`. */
  lemma PrefixThenSlash(key: string, pathPrefix: string)
    requires |key| > |pathPrefix| + 1
    requires key[..|pathPrefix|] == pathPrefix && key[|pathPrefix|] == '/'
    ensures key[..|pathPrefix| + 1] == pathPrefix + "/"
  {
    forall k | 0 <= k < |pathPrefix| ensures key[k] == pathPrefix[k] {
      assert key[k] == key[..|pathPrefix|][k];
    }
  }

  /** A request built under `public/<labelText>` has its key under `public/<labelText>/`. */
  lemma RequestUnderLabel(labelText: string, imageSrc: string, id: string)
    ensures KeyUnderLabel(PendingUpload(labelText, UploadParamsOf(imageSrc, "public/" + labelText, id)))
  {
    var pathPrefix := "public/" + labelText;
    var key := UploadParamsOf(imageSrc, pathPrefix, id).key;
    PrefixThenSlash(key, pathPrefix);
  }

  /** A tick while capturing keeps the invariant. */
  lemma TickKeepsInv(s: State, imageSrc: string, id: string)
    requires Inv(s) && Capturing(s)
    ensures Inv(CaptureBegun(s, imageSrc, id))
  {
    var t := CaptureBegun(s, imageSrc, id);
    RequestUnderLabel(s.labelText, imageSrc, id);
    assert t.inFlight[|s.inFlight|] == PendingUpload(s.labelText, UploadParamsOf(imageSrc, "public/" + s.labelText, id));
    assert forall i :: 0 <= i < |s.inFlight| ==> t.inFlight[i] == s.inFlight[i];
  }

  /** Settling an in-flight upload keeps the invariant. */
  lemma SettleKeepsInv(s: State, index: nat, succeeded: bool)
    requires Inv(s) && index < |s.inFlight|
    ensures Inv(CaptureSettled(s, index, succeeded))
  {
    var t := CaptureSettled(s, index, succeeded);
    assert forall i :: 0 <= i < |t.inFlight| ==>
      t.inFlight[i] == s.inFlight[if i < index then i else i + 1];
  }

  /** Each guarded step keeps the invariant. */
  lemma StepKeepsInv(s: State, e: Event)
    requires Inv(s)
    ensures Inv(Step(s, e))
  {
    match e
    case TimerTick(imageSrc, id) =>
      if Capturing(s) {
        TickKeepsInv(s, imageSrc, id);
      }
    case UploadSettled(index, succeeded) =>
      if index < |s.inFlight| {
        SettleKeepsInv(s, index, succeeded);
      }
    case _ =>
  }

  /** Any sequence of events keeps the invariant. */
  lemma {:induction false} RunKeepsInv(s: State, events: seq<Event>)
    requires Inv(s)
    ensures Inv(Run(s, events))
    decreases |events|
  {
    if |events| > 0 {
      StepKeepsInv(s, events[0]);
      RunKeepsInv(Step(s, events[0]), events[1..]);
    }
  }

  /** In every reachable state, no more uploads have completed than were started. */
  lemma CompletedNeverExceedsStarted(events: seq<Event>)
    ensures Run(Init, events).uploadsCompleted <= Run(Init, events).totalUploads
  {
    RunKeepsInv(Init, events);
  }

  /** Pressing Stop while capturing always stops the timer and clears the label. */
  lemma StopClearsLabel(s: State, handle: IntervalId)
    requires Inv(s) && Capturing(s)
    ensures !Capturing(Step(s, ButtonClick(handle)))
    ensures Step(s, ButtonClick(handle)).labelText == ""
  {
  }

  /** Capturing starts only from the button, and only with a non-empty label, which it keeps. */
  lemma StartNeedsLabel(s: State, e: Event)
    requires !Capturing(s) && Capturing(Step(s, e))
    ensures e.ButtonClick? && s.labelText != ""
    ensures Step(s, e).labelText == s.labelText
  {
  }

  /** While capturing, the label changes only by stopping, which empties it. */
  lemma LabelFixedWhileCapturing(s: State, e: Event)
    requires Capturing(s)
    ensures Capturing(Step(s, e)) ==> Step(s, e).labelText == s.labelText
    ensures !Capturing(Step(s, e)) ==> Step(s, e).labelText == ""
  {
  }

  /** Over a whole run during which the timer never stops, the label stays the same. */
  lemma {:induction false} LabelFixedOverCaptureRun(s: State, events: seq<Event>)
    requires Capturing(s)
    requires forall k :: 0 <= k <= |events| ==> Capturing(Run(s, events[..k]))
    ensures Run(s, events).labelText == s.labelText
    decreases |events|
  {
    if |events| > 0 {
      var t := Step(s, events[0]);
      assert events[..1] == [events[0]];
      assert Run(s, events[..1]) == Run(t, []);
      LabelFixedWhileCapturing(s, events[0]);
      forall k | 0 <= k <= |events[1..]| ensures Capturing(Run(t, events[1..][..k])) {
        assert events[..k + 1] == [events[0]] + events[1..][..k];
        assert Run(s, events[..k + 1]) == Run(t, events[1..][..k]);
      }
      LabelFixedOverCaptureRun(t, events[1..]);
      assert events[..|events|] == events;
    }
  }

  /** A tick while capturing queues the upload of `public/<label>/<id>.<extension>`. */
  lemma TickUploadsUnderLabel(s: State, data: string, id: string)
    requires Capturing(s)
    ensures Step(s, TimerTick(DataImagePrefix + "jpeg" + Base64Marker + data, id)).inFlight
      == s.inFlight + [PendingUpload(s.labelText,
           UploadParams("public/" + s.labelText + "/" + id + "." + "jpg", data, "base64", "image/" + "jpeg"))]
  {
    ScreenshotUpload(s.labelText, id, data);
  }

  /** The status line: a waiting message before any capture, else the two counters. */
  function StatusText(totalUploads: nat, uploadsCompleted: nat): (r: string)
    ensures r == Waiting <==> totalUploads == 0
  {
    if totalUploads == 0 then Waiting
    else
      var r := "Uploaded " + Decimal(uploadsCompleted) + " of " + Decimal(totalUploads);
      assert r[0] != Waiting[0];
      r
  }

  /**
   * Once an upload has started the line reads "Uploaded <completed> of <total>", each
   * counter in decimal digits that read back as its value, with no leading zero.
   */
  lemma StatusShowsCounters(totalUploads: nat, uploadsCompleted: nat)
    requires totalUploads > 0
    ensures exists a, b ::
              && AllDigits(a) && AllDigits(b)
              && |a| >= 1 && (|a| > 1 ==> a[0] != '0')
              && |b| >= 1 && (|b| > 1 ==> b[0] != '0')
              && DecimalValue(a) == uploadsCompleted && DecimalValue(b) == totalUploads
              && StatusText(totalUploads, uploadsCompleted) == "Uploaded " + a + " of " + b
  {
    var a, b := Decimal(uploadsCompleted), Decimal(totalUploads);
    DecimalRoundTrip(uploadsCompleted);
    DecimalRoundTrip(totalUploads);
    assert StatusText(totalUploads, uploadsCompleted) == "Uploaded " + a + " of " + b;
  }

  /** The two numbers of an "Uploaded X of Y" line are read back unambiguously. */
  lemma UploadedLineParts(a: string, b: string, a': string, b': string)
    requires AllDigits(a) && AllDigits(a')
    requires "Uploaded " + a + " of " + b == "Uploaded " + a' + " of " + b'
    ensures a == a' && b == b'
  {
    var r := "Uploaded " + a + " of " + b;
    var r' := "Uploaded " + a' + " of " + b';
    forall k | 0 <= k < |a| ensures r[9 + k] == a[k] && IsDigit(r[9 + k]) { }
    forall k | 0 <= k < |a'| ensures r'[9 + k] == a'[k] && IsDigit(r'[9 + k]) { }
    assert r[9 + |a|] == ' ';
    assert r'[9 + |a'|] == ' ';
    assert |a| == |a'|;
    forall k | 0 <= k < |a| ensures a[k] == a'[k] {
      assert r[9 + k] == r'[9 + k];
    }
    assert a == a';
    assert b == r[13 + |a|..];
    assert b' == r'[13 + |a|..];
  }

  /** Two states that show the same status line agree on the counters it shows. */
  lemma StatusTextFaithful(total1: nat, done1: nat, total2: nat, done2: nat)
    requires StatusText(total1, done1) == StatusText(total2, done2)
    ensures total1 == total2
    ensures total1 > 0 ==> done1 == done2
  {
    if total1 > 0 {
      UploadedLineParts(Decimal(done1), Decimal(total1), Decimal(done2), Decimal(total2));
      DecimalInjective(done1, done2);
      DecimalInjective(total1, total2);
    }
  }

  /** The component, its four fields and the in-flight uploads updated in place. */
  class WebcamCapture {
    var labelText: string
    var captureInterval: Option<IntervalId>
    var totalUploads: nat
    var uploadsCompleted: nat
    var inFlight: seq<PendingUpload>

    /** The fields as a state value. */
    function Snapshot(): State
      reads this
    {
      State(labelText, captureInterval, totalUploads, uploadsCompleted, inFlight)
    }

    constructor ()
      ensures Snapshot() == Init
    {
      labelText := "";
      captureInterval := None;
      totalUploads := 0;
      uploadsCompleted := 0;
      inFlight := [];
    }

    method HandleChange(name: string, value: string)
      requires name == "label"
      modifies this
      ensures Snapshot() == Changed(old(Snapshot()), value)
    {
      labelText := value;
    }

    method ToggleCapture(handle: IntervalId)
      modifies this
      ensures Snapshot() == Toggled(old(Snapshot()), handle)
      ensures CountersValid(old(Snapshot())) ==> CountersValid(Snapshot())
    {
      if captureInterval.Some? {
        labelText, captureInterval := "", None;
      } else {
        captureInterval := Some(handle);
      }
    }

    /** `capture` up to its `await`: count the upload and hand its request to the store. */
    method CaptureStart(imageSrc: string, id: string)
      modifies this
      ensures Snapshot() == CaptureBegun(old(Snapshot()), imageSrc, id)
      ensures CountersValid(old(Snapshot())) ==> CountersValid(Snapshot())
    {
      totalUploads := totalUploads + 1;
      var request := UploadParamsOf(imageSrc, "public/" + labelText, id);
      inFlight := inFlight + [PendingUpload(labelText, request)];
    }

    /** `capture` after its `await`: the pending upload `index` has settled. */
    method CaptureFinish(index: nat, succeeded: bool)
      requires index < |inFlight|
      modifies this
      ensures Snapshot() == CaptureSettled(old(Snapshot()), index, succeeded)
      ensures CountersValid(old(Snapshot())) ==> CountersValid(Snapshot())
    {
      if succeeded {
        uploadsCompleted := uploadsCompleted + 1;
      }
      inFlight := inFlight[..index] + inFlight[index + 1..];
    }

    /** The `UploadStatus` text. */
    method UploadStatus() returns (text: string)
      ensures text == Waiting <==> totalUploads == 0
      ensures text == StatusText(totalUploads, uploadsCompleted)
    {
      text := StatusText(totalUploads, uploadsCompleted);
    }
  }
}
