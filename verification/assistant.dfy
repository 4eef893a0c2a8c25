/** The voice-assistant launch request: which camera, whether to only open
    the camera, and a self-timer, each read from the first of two extra keys
    the intent carries. */
module Assistant {
  import opened Wrappers
  import opened Seqs

  /** A value held in an intent's extras bundle. */
  datatype Extra = BoolExtra(b: bool) | IntExtra(n: int) | OtherExtra

  type Extras = map<string, Extra>

  /** `Bundle.getBoolean`: the held boolean, `false` for a missing key or a
      value of another type. */
  function GetBoolean(e: Extras, key: string): bool {
    if key in e && e[key].BoolExtra? then e[key].b else false
  }

  /** `Bundle.getInt`: the held integer, `0` for a missing key or a value of
      another type. */
  function GetInt(e: Extras, key: string): int {
    if key in e && e[key].IntExtra? then e[key].n else 0
  }

  datatype AssistantIntent = AssistantIntent(useFrontCamera: Option<bool>, cameraOpenOnly: Option<bool>, timerDurationSeconds: Option<int>)

  /** The platform key of each field comes before the assistant's own. */
  const UseFrontCameraKeys: seq<string> := ["android.intent.extra.USE_FRONT_CAMERA", "com.google.assistant.extra.USE_FRONT_CAMERA"]
  const CameraOpenOnlyKeys: seq<string> := ["android.intent.extra.CAMERA_OPEN_ONLY", "com.google.assistant.extra.CAMERA_OPEN_ONLY"]
  const TimerDurationSecondsKeys: seq<string> := ["android.intent.extra.TIMER_DURATION_SECONDS", "com.google.assistant.extra.TIMER_DURATION_SECONDS"]

  /** The first key of the list the extras hold. */
  function FirstPresent(keys: seq<string>, e: Extras): (r: Option<string>)
    ensures r.None? <==> forall i :: 0 <= i < |keys| ==> keys[i] !in e
    ensures r.Some? ==> r.value in e && exists i :: 0 <= i < |keys| && keys[i] == r.value && forall j :: 0 <= j < i ==> keys[j] !in e
  {
    FirstWhere(keys, k => k in e)
  }

  /** A boolean field: the value under its first present key, or null. */
  function BoolField(keys: seq<string>, e: Extras): (r: Option<bool>)
    requires |keys| == 2
    ensures keys[0] in e ==> r == Some(GetBoolean(e, keys[0]))
    ensures keys[0] !in e && keys[1] in e ==> r == Some(GetBoolean(e, keys[1]))
    ensures keys[0] !in e && keys[1] !in e ==> r.None?
  {
    var k := FirstPresent(keys, e);
    if k.Some? then Some(GetBoolean(e, k.value)) else None
  }

  /** An integer field: the value under its first present key, or null. */
  function IntField(keys: seq<string>, e: Extras): (r: Option<int>)
    requires |keys| == 2
    ensures keys[0] in e ==> r == Some(GetInt(e, keys[0]))
    ensures keys[0] !in e && keys[1] in e ==> r == Some(GetInt(e, keys[1]))
    ensures keys[0] !in e && keys[1] !in e ==> r.None?
  {
    var k := FirstPresent(keys, e);
    if k.Some? then Some(GetInt(e, k.value)) else None
  }

  /** Whether the extras hold some key of the request. */
  predicate AnyKey(e: Extras) {
    (exists i :: 0 <= i < |UseFrontCameraKeys| && UseFrontCameraKeys[i] in e) ||
    (exists i :: 0 <= i < |CameraOpenOnlyKeys| && CameraOpenOnlyKeys[i] in e) ||
    (exists i :: 0 <= i < |TimerDurationSecondsKeys| && TimerDurationSecondsKeys[i] in e)
  }

  /** `fromIntent`: null without extras and when no field is present;
      otherwise each field from its first present key. */
  function FromIntent(extras: Option<Extras>): (r: Option<AssistantIntent>)
    ensures extras.None? ==> r.None?
    ensures extras.Some? ==> (r.None? <==> !AnyKey(extras.value))
    ensures r.Some? ==>
      r.value.useFrontCamera == BoolField(UseFrontCameraKeys, extras.value) &&
      r.value.cameraOpenOnly == BoolField(CameraOpenOnlyKeys, extras.value) &&
      r.value.timerDurationSeconds == IntField(TimerDurationSecondsKeys, extras.value)
  {
    if extras.None? then None
    else
      var e := extras.value;
      var useFrontCamera := BoolField(UseFrontCameraKeys, e);
      var cameraOpenOnly := BoolField(CameraOpenOnlyKeys, e);
      var timerDurationSeconds := IntField(TimerDurationSecondsKeys, e);
      if useFrontCamera.None? && cameraOpenOnly.None? && timerDurationSeconds.None? then None
      else Some(AssistantIntent(useFrontCamera, cameraOpenOnly, timerDurationSeconds))
  }

  /** The extras an assistant sends for a request, under the platform keys. */
  function ToExtras(a: AssistantIntent): (e: Extras)
    ensures a.useFrontCamera.Some? <==> UseFrontCameraKeys[0] in e
    ensures a.cameraOpenOnly.Some? <==> CameraOpenOnlyKeys[0] in e
    ensures a.timerDurationSeconds.Some? <==> TimerDurationSecondsKeys[0] in e
    ensures a.useFrontCamera.Some? ==> e[UseFrontCameraKeys[0]] == BoolExtra(a.useFrontCamera.value)
    ensures a.cameraOpenOnly.Some? ==> e[CameraOpenOnlyKeys[0]] == BoolExtra(a.cameraOpenOnly.value)
    ensures a.timerDurationSeconds.Some? ==> e[TimerDurationSecondsKeys[0]] == IntExtra(a.timerDurationSeconds.value)
  {
    var m1 := if a.useFrontCamera.Some? then map[UseFrontCameraKeys[0] := BoolExtra(a.useFrontCamera.value)] else map[];
    var m2 := if a.cameraOpenOnly.Some? then m1[CameraOpenOnlyKeys[0] := BoolExtra(a.cameraOpenOnly.value)] else m1;
    if a.timerDurationSeconds.Some? then m2[TimerDurationSecondsKeys[0] := IntExtra(a.timerDurationSeconds.value)] else m2
  }

  /** A request with at least one field reads back as itself from the
      extras that carry it; one with no field reads as null. */
  lemma {:induction false} FromIntentToExtras(a: AssistantIntent)
    ensures a.useFrontCamera.Some? || a.cameraOpenOnly.Some? || a.timerDurationSeconds.Some? ==>
      FromIntent(Some(ToExtras(a))) == Some(a)
    ensures a == AssistantIntent(None, None, None) ==> FromIntent(Some(ToExtras(a))).None?
  {
    var e := ToExtras(a);
    assert UseFrontCameraKeys[1] !in e && CameraOpenOnlyKeys[1] !in e && TimerDurationSecondsKeys[1] !in e;
  }

  /** When both keys of a field are present, the platform key wins. */
  lemma {:induction false} PlatformKeyWins(e: Extras)
    requires UseFrontCameraKeys[0] in e && UseFrontCameraKeys[1] in e
    ensures FromIntent(Some(e)).Some?
    ensures FromIntent(Some(e)).value.useFrontCamera == Some(GetBoolean(e, UseFrontCameraKeys[0]))
  {
  }

  /** Extras that hold only unrelated keys give no request, however many
      they hold. */
  lemma {:induction false} UnrelatedExtras(e: Extras)
    requires forall k :: k in e ==> k !in UseFrontCameraKeys + CameraOpenOnlyKeys + TimerDurationSecondsKeys
    ensures FromIntent(Some(e)).None?
  {
    assert !AnyKey(e);
  }
}
