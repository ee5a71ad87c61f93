/**
 * The recording hook of client/src/hooks/useRecording.ts: the duration shown and
 * the state the hook keeps while the browser's recorder runs. The recorder itself
 * is reduced to whether it exists and whether it is still active.
 */
module Recording {
  import opened Wrappers
  import Decimal

  /** JavaScript's `%`: the remainder takes the sign of the dividend. */
  function JsRemainder(a: int, b: int): (r: int)
    requires b > 0
    ensures 0 <= a ==> r == a % b
    ensures a < 0 ==> -b < r <= 0
    ensures (a - r) % b == 0
  {
    if a >= 0 then
      ModuloUnique(a - a % b, b, a / b, 0);
      a % b
    else
      var q, m := (-a) / b, (-a) % b;
      assert -a == q * b + m;
      assert a + m == (-q) * b + 0 by { assert (-q) * b == -(q * b); }
      ModuloUnique(a + m, b, -q, 0);
      -m
  }

  /** Euclidean division is unique: a quotient and remainder in range are `/` and `%`. */
  lemma ModuloUnique(x: int, b: int, q: int, m: int)
    requires b > 0 && x == q * b + m && 0 <= m < b
    ensures x % b == m
  {
    var q', m' := x / b, x % b;
    assert x == q' * b + m';
    assert (q - q') * b == q * b - q' * b && (q' - q) * b == q' * b - q * b;
    AtLeastOnce(q - q', b);
    AtLeastOnce(q' - q, b);
  }

  /** A positive multiple of a positive `b` is at least `b`. */
  lemma AtLeastOnce(d: int, b: int)
    requires b > 0
    ensures d >= 1 ==> d * b >= b
  {
    if d >= 1 {
      assert d * b == (d - 1) * b + b;
    }
  }

  /**
   * `formatDuration`: `Math.floor(seconds / 60)`, a colon, and `seconds % 60`
   * padded to two characters with zeros. (Dafny's `/` by a positive divisor
   * rounds down, as `Math.floor` does.)
   */
  function FormatDuration(seconds: int): (r: string)
    ensures 4 <= |r|
    ensures r[0] == '-' <==> seconds < 0
  {
    Decimal.IntToString(seconds / 60) + ":" +
    Decimal.PadStart(Decimal.IntToString(JsRemainder(seconds, 60)), 2, '0')
  }

  /** Position of the first `c` in `s`, or `|s|` when there is none. */
  function IndexOfChar(s: string, c: char): (k: nat)
    ensures k <= |s|
    ensures k < |s| ==> s[k] == c
    ensures forall i :: 0 <= i < k ==> s[i] != c
  {
    if |s| == 0 then 0 else if s[0] == c then 0 else 1 + IndexOfChar(s[1..], c)
  }

  /** Reads a shown of the form minutes, colon, two-digit seconds below 60. */
  function ParseDuration(s: string): Option<int> {
    var k := IndexOfChar(s, ':');
    if k == |s| then None
    else
      var mins := Decimal.ParseNat(s[..k]);
      var secs := s[k + 1..];
      if mins.None? || |secs| != 2 then None
      else
        var sec := Decimal.ParseNat(secs);
        if sec.None? || sec.value >= 60 then None else Some(mins.value * 60 + sec.value)
  }

  /** A two-digit, zero-padded rendering of a value below 60 reads back as that value. */
  lemma {:induction false} PaddedSeconds(secs: nat)
    requires secs < 60
    ensures |Decimal.PadStart(Decimal.NatToString(secs), 2, '0')| == 2
    ensures Decimal.ParseNat(Decimal.PadStart(Decimal.NatToString(secs), 2, '0')) == Some(secs)
  {
    var digits := Decimal.NatToString(secs);
    Decimal.NatToStringLength(secs);
    Decimal.DigitsValueOfNatToString(secs);
    var padded := Decimal.PadStart(digits, 2, '0');
    if secs < 10 {
      assert padded == "0" + digits;
      assert padded[..1] == "0";
      assert Decimal.DigitsValue(padded[..1]) == 0 by {
        assert padded[..1][..0] == "";
      }
      assert Decimal.DigitsValue(digits) == Decimal.DigitValue(digits[0]) by {
        assert digits[..0] == "";
      }
    } else {
      assert padded == digits;
    }
  }

  /**
   * For a non-negative duration the shown is the minutes, a colon and exactly
   * two characters holding the seconds below 60, and minutes * 60 + seconds is
   * the duration.
   */
  lemma FormatDurationParts(seconds: int)
    requires 0 <= seconds
    ensures var shown := FormatDuration(seconds);
            var k := |Decimal.NatToString(seconds / 60)|;
            |shown| == k + 3 &&
            shown[..k] == Decimal.NatToString(seconds / 60) &&
            shown[k] == ':' &&
            Decimal.ParseNat(shown[k + 1..]) == Some(seconds % 60) &&
            seconds % 60 < 60 &&
            (seconds / 60) * 60 + seconds % 60 == seconds
  {
    var minutes := Decimal.NatToString(seconds / 60);
    var padded := Decimal.PadStart(Decimal.NatToString(seconds % 60), 2, '0');
    PaddedSeconds(seconds % 60);
    FormatDurationShape(seconds);
    AroundColon(minutes, padded);
  }

  /** Where the two halves of `a + ":" + b` lie. */
  lemma AroundColon(a: string, b: string)
    ensures var s := a + ":" + b;
            |s| == |a| + 1 + |b| && s[..|a|] == a && s[|a|] == ':' && s[|a| + 1..] == b
  {
    var s := a + ":" + b;
    assert s[..|a|] == a;
    assert s[|a| + 1..] == b;
  }

  /** A non-negative duration is shown as its minutes' digits, a colon and the padded seconds. */
  lemma FormatDurationShape(seconds: int)
    requires 0 <= seconds
    ensures FormatDuration(seconds) ==
              Decimal.NatToString(seconds / 60) + ":" +
              Decimal.PadStart(Decimal.NatToString(seconds % 60), 2, '0')
  {
    assert Decimal.IntToString(seconds / 60) == Decimal.NatToString(seconds / 60);
    assert JsRemainder(seconds, 60) == seconds % 60;
    assert Decimal.IntToString(seconds % 60) == Decimal.NatToString(seconds % 60);
  }

  /** The shown of a non-negative duration reads back as that duration. */
  lemma FormatDurationRoundTrip(seconds: int)
    requires 0 <= seconds
    ensures ParseDuration(FormatDuration(seconds)) == Some(seconds)
  {
    FormatDurationShape(seconds);
    ShapeRoundTrip(seconds / 60, seconds % 60, seconds);
  }

  /** Minutes, a colon and seconds below 60 padded to two digits read back as a number of seconds. */
  lemma ShapeRoundTrip(m: nat, sec: nat, seconds: int)
    requires sec < 60 && seconds == m * 60 + sec
    ensures ParseDuration(Decimal.NatToString(m) + ":" +
                          Decimal.PadStart(Decimal.NatToString(sec), 2, '0')) == Some(seconds)
  {
    PaddedSeconds(sec);
    ParseMinutesSeconds(m, Decimal.PadStart(Decimal.NatToString(sec), 2, '0'), sec);
  }

  /** Minutes, a colon and two digits below 60 read back as a number of seconds. */
  lemma ParseMinutesSeconds(m: nat, secs: string, sec: nat)
    requires |secs| == 2 && Decimal.ParseNat(secs) == Some(sec) && sec < 60
    ensures ParseDuration(Decimal.NatToString(m) + ":" + secs) == Some(m * 60 + sec)
  {
    var minutes := Decimal.NatToString(m);
    var shown := minutes + ":" + secs;
    var k := |minutes|;
    assert IndexOfChar(shown, ':') == k by {
      assert shown[k] == ':';
      forall i | 0 <= i < k ensures shown[i] != ':' {
        assert shown[i] == minutes[i];
      }
    }
    Decimal.ParseNatToString(m);
    assert shown[..k] == minutes;
    assert shown[k + 1..] == secs;
  }

  /** A piece of recorded audio delivered by the recorder's `dataavailable` event. */
  datatype Chunk = Chunk(bytes: seq<bv8>)

  /** `new Blob(chunks)`: the recorded pieces in order. */
  datatype Blob = Blob(parts: seq<Chunk>)

  datatype RecordingState = RecordingState(
    isRecording: bool,
    isPaused: bool,
    duration: int,
    audioURL: Option<string>,
    audioBlob: Option<Blob>)

  /** The all-cleared state the hook starts in and returns to on cancel and reset. */
  const Cleared := RecordingState(false, false, 0, None, None)

  /** The state a successful start sets. */
  const Started := RecordingState(true, false, 0, None, None)

  /** `MediaRecorder.state`, reduced to active ("recording") or inactive. */
  datatype RecorderStatus = Active | Inactive

  class RecordingHook {
    var recordingState: RecordingState
    /** `mediaRecorderRef.current`: no recorder, or one with its status. */
    var mediaRecorder: Option<RecorderStatus>
    /** `audioChunksRef.current`. */
    var audioChunks: seq<Chunk>
    /** Whether `timerRef.current` holds a running interval. */
    var timerRunning: bool

    predicate RecorderActive()
      reads this
    {
      mediaRecorder == Some(Active)
    }

    constructor ()
      ensures recordingState == Cleared && mediaRecorder == None
      ensures audioChunks == [] && !timerRunning
    {
      recordingState := Cleared;
      mediaRecorder := None;
      audioChunks := [];
      timerRunning := false;
    }

    /**
     * `startRecording`. `microphoneGranted` is the outcome of asking the browser
     * for the microphone; when it fails only a notice is shown.
     */
    method StartRecording(microphoneGranted: bool)
      modifies this
      ensures !microphoneGranted ==> unchanged(this)
      ensures microphoneGranted ==>
                recordingState == Started && mediaRecorder == Some(Active) &&
                audioChunks == [] && timerRunning
    {
      if microphoneGranted {
        mediaRecorder := Some(Active);
        audioChunks := [];
        timerRunning := true;
        recordingState := Started;
      }
    }

    /** The `dataavailable` handler: only pieces with a non-zero size are kept. */
    method OnDataAvailable(chunk: Chunk)
      modifies this`audioChunks
      ensures audioChunks == old(audioChunks) + if |chunk.bytes| > 0 then [chunk] else []
    {
      if |chunk.bytes| > 0 {
        audioChunks := audioChunks + [chunk];
      }
    }

    /** The interval callback, once a second while the timer runs. */
    method Tick(elapsedSeconds: nat)
      modifies this`recordingState
      ensures timerRunning ==> recordingState == old(recordingState).(duration := elapsedSeconds)
      ensures !timerRunning ==> recordingState == old(recordingState)
    {
      if timerRunning {
        recordingState := recordingState.(duration := elapsedSeconds);
      }
    }

    /**
     * The `stop` handler: recording ends and the blob of the kept pieces and its
     * object URL are stored; the duration stays as it was.
     */
    method OnStop(audioURL: string)
      modifies this`recordingState
      ensures recordingState.isRecording == false
      ensures recordingState.audioURL == Some(audioURL)
      ensures recordingState.audioBlob == Some(Blob(audioChunks))
      ensures recordingState.duration == old(recordingState.duration)
      ensures recordingState.isPaused == old(recordingState.isPaused)
    {
      recordingState := recordingState.(isRecording := false, audioURL := Some(audioURL),
                                        audioBlob := Some(Blob(audioChunks)));
    }

    /** `stopRecording`: stops an active recorder and its timer, otherwise does nothing. */
    method StopRecording()
      modifies this
      ensures old(RecorderActive()) ==>
                mediaRecorder == Some(Inactive) && !timerRunning &&
                recordingState == old(recordingState) && audioChunks == old(audioChunks)
      ensures !old(RecorderActive()) ==> unchanged(this)
    {
      if RecorderActive() {
        mediaRecorder := Some(Inactive);
        timerRunning := false;
      }
    }

    /**
     * `cancelRecording`: like `stopRecording`, and the state is cleared; a
     * missing or inactive recorder leaves everything as it was.
     */
    method CancelRecording()
      modifies this
      ensures old(RecorderActive()) ==>
                mediaRecorder == Some(Inactive) && !timerRunning &&
                recordingState == Cleared && audioChunks == old(audioChunks)
      ensures !old(RecorderActive()) ==> unchanged(this)
    {
      if RecorderActive() {
        mediaRecorder := Some(Inactive);
        timerRunning := false;
        recordingState := Cleared;
      }
    }

    /** `resetRecording`: always back to the cleared state (the object URL is released). */
    method ResetRecording()
      modifies this`recordingState
      ensures recordingState == Cleared
    {
      recordingState := Cleared;
    }
  }

  /**
   * Stopping a recorder only queues its `stop` event, so a cancelled recording
   * comes back: after start, cancel and the event that follows, the state holds
   * the blob and URL again.
   */
  method CancelThenStopEvent(audioURL: string) returns (state: RecordingState)
    ensures !state.isRecording && state.duration == 0
    ensures state.audioURL == Some(audioURL) && state.audioBlob == Some(Blob([]))
  {
    var hook := new RecordingHook();
    hook.StartRecording(true);
    hook.CancelRecording();
    hook.OnStop(audioURL);
    state := hook.recordingState;
  }
}
