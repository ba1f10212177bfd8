/**
 * The decision logic of `enhanced_script.js`: the noise filter for transcripts,
 * the page's dictation state (text area, last accepted transcript, listening
 * flags) with its result, click and end handlers, the mobile throttles that
 * guard transcript appends and speech starts, and the save-file name.
 *
 * `Date.now()` is a parameter; each `setTimeout` that clears a flag is a method
 * the environment calls when the timer fires.
 */
module Enhanced {
  import opened Text
  import opened Speech

  // ---------------------------------------------------------------------------
  // Noise filter

  /** The lower-case words the case-insensitive noise patterns match exactly. */
  const NoiseWords: set<string> :=
    {"um", "uh", "hmm", "err", "sigh", "cough", "sneeze", "background noise", "silence"}

  /** The single marks the case-sensitive noise pattern matches exactly. */
  const NoiseMarks: set<string> := {"*", ".", ",", ";", ":", "?"}

  /** Whether a trimmed transcript is exactly one of the noise patterns. */
  predicate IsNoise(core: string) {
    Lower(core) in NoiseWords || core in NoiseMarks
  }

  /** `isValidTranscript`: at least two characters, and the trimmed form is not noise.
      The length is that of the untrimmed transcript, so two or more whitespace
      characters pass: their trimmed form is empty and matches no pattern. */
  function IsValidTranscript(transcript: string): (r: bool)
    ensures r ==> |transcript| >= 2
    ensures IsNoise(Trim(transcript)) ==> !r
    ensures Trim(transcript) in NoiseMarks ==> !r
    ensures |transcript| >= 2 && AllSpace(transcript) ==> r
  {
    TrimEmptyIffAllSpace(transcript);
    |transcript| >= 2 && !IsNoise(Trim(transcript))
  }

  /** The single-letter test that follows the length test in the source can never
      reject anything the length test has not already rejected. */
  lemma SingleCharacterTestIsDead(transcript: string)
    requires |transcript| == 1
    ensures !IsValidTranscript(transcript)
  {
  }

  /** Case folding turns a non-letter only into itself. */
  lemma LowerCharFixesNonLetter(c: char, m: char)
    requires !('A' <= m <= 'Z') && !('a' <= m <= 'z')
    ensures LowerChar(c) == m <==> c == m
  {
  }

  /** Strings with the same case-folded form have the same noise verdict. */
  lemma NoiseIgnoresCase(a: string, b: string)
    requires Lower(a) == Lower(b)
    ensures IsNoise(a) == IsNoise(b)
  {
    if a in NoiseMarks {
      assert |b| == |Lower(b)| == 1 && Lower(a)[0] == a[0];
      LowerCharFixesNonLetter(b[0], a[0]);
      assert b == [b[0]];
    }
    if b in NoiseMarks {
      assert |a| == |Lower(a)| == 1 && Lower(b)[0] == b[0];
      LowerCharFixesNonLetter(a[0], b[0]);
      assert a == [a[0]];
    }
  }

  /** The filter's verdict does not depend on the case of ASCII letters. */
  lemma ValidityIgnoresCase(a: string, b: string)
    requires Lower(a) == Lower(b)
    ensures IsValidTranscript(a) == IsValidTranscript(b)
  {
    assert |a| == |Lower(a)| == |b|;
    LowerTrim(a);
    LowerTrim(b);
    NoiseIgnoresCase(Trim(a), Trim(b));
  }

  /** Leading whitespace does not change the verdict on a transcript that is long
      enough on its own. */
  lemma ValidityIgnoresLeadingSpace(pad: string, t: string)
    requires AllSpace(pad) && |t| >= 2
    ensures IsValidTranscript(pad + t) == IsValidTranscript(t)
  {
    TrimAbsorbsPadding(pad, t);
  }

  /** A transcript with no surrounding whitespace that is noise is rejected. */
  lemma TrimmedNoiseRejected(w: string)
    requires Trim(w) == w && IsNoise(w)
    ensures !IsValidTranscript(w)
  {
  }

  /** A transcript of two or more characters with no surrounding whitespace that
      is not noise is accepted. */
  lemma TrimmedOtherAccepted(w: string)
    requires Trim(w) == w && |w| >= 2 && !IsNoise(w)
    ensures IsValidTranscript(w)
  {
  }

  /** "Um": a filler word is noise in any letter case. */
  lemma FillerRejected(w: string)
    requires |w| == 2 && w[0] == 'U' && w[1] == 'm'
    ensures !IsValidTranscript(w)
  {
    TrimOfTrimmed(w);
    FoldsToUm(w);
    TrimmedNoiseRejected(w);
  }

  lemma FoldsToUm(w: string)
    requires |w| == 2 && w[0] == 'U' && w[1] == 'm'
    ensures IsNoise(w)
  {
    assert Lower(w) == "um";
  }

  /** " ?": a lone question mark is noise even when padded to two characters,
      because the patterns test the trimmed form. */
  lemma PaddedMarkRejected(w: string)
    requires |w| == 2 && w[0] == ' ' && w[1] == '?'
    ensures !IsValidTranscript(w)
  {
    var mark := w[1..];
    assert w == [w[0]] + mark;
    TrimAbsorbsPadding([w[0]], mark);
    TrimOfTrimmed(mark);
    MarkIsNoise(mark);
  }

  lemma MarkIsNoise(mark: string)
    requires |mark| == 1 && mark[0] == '?'
    ensures IsNoise(mark)
  {
    assert mark == "?";
  }

  /** "um um": the patterns are anchored, so a repeated filler word is kept. */
  lemma RepeatedFillerAccepted(w: string)
    requires |w| == 5 && w[0] == 'u' && w[1] == 'm' && w[2] == ' ' && w[3] == 'u' && w[4] == 'm'
    ensures IsValidTranscript(w)
  {
    TrimOfTrimmed(w);
    RepeatedFillerNotNoise(w);
    TrimmedOtherAccepted(w);
  }

  lemma RepeatedFillerNotNoise(w: string)
    requires |w| == 5 && w[0] == 'u' && w[2] == ' '
    ensures !IsNoise(w)
  {
    var l := Lower(w);
    assert |l| == 5 && l[0] == 'u' && l[2] == ' ';
  }

  // ---------------------------------------------------------------------------
  // Save-file name

  const DefaultFilename: string := "speechify_text"
  const TextSuffix: string := ".txt"

  /** The dialog's name: the trimmed input, or the default when that is empty,
      with `.txt` added unless it is already there. */
  function SaveFilename(input: string): (name: string)
    ensures EndsWith(name, TextSuffix)
    ensures var base := if Trim(input) == [] then DefaultFilename else Trim(input);
      && StartsWith(name, base)
      && (name == base <==> EndsWith(base, TextSuffix))
      && (name != base ==> |name| == |base| + |TextSuffix|)
  {
    var base := if Trim(input) == [] then DefaultFilename else Trim(input);
    if EndsWith(base, TextSuffix) then base else base + TextSuffix
  }

  /** Normalising a normalised name changes nothing. */
  lemma SaveFilenameIdempotent(input: string)
    ensures SaveFilename(SaveFilename(input)) == SaveFilename(input)
  {
    var name := SaveFilename(input);
    var base := if Trim(input) == [] then DefaultFilename else Trim(input);
    assert base[0] == name[0];
    assert name[|name| - 1] == 't' by {
      assert name[|name| - 4..] == TextSuffix;
    }
    TrimOfTrimmed(name);
  }

  /** The save button: nothing to save unless the text has a non-blank character;
      otherwise the untrimmed text is downloaded under the normalised name. */
  function SaveRequest(text: string, input: string): (r: Result<Download, SaveError>)
    ensures r.Failure? <==> AllSpace(text)
    ensures r.Failure? ==> r.error == NothingToSave
    ensures r.Success? ==>
      r.value.content == text && r.value.filename == SaveFilename(input)
      && EndsWith(r.value.filename, TextSuffix)
  {
    TrimEmptyIffAllSpace(text);
    if Trim(text) == [] then Failure(NothingToSave) else Success(Download(SaveFilename(input), text))
  }

  // ---------------------------------------------------------------------------
  // Mobile throttles

  const MinTranscriptGap: int := 1000
  const TranscriptRepeatWindow: int := 5000
  const TranscriptHistory: nat := 5
  const MinSpeechGap: int := 3000
  const SpeechRepeatWindow: int := 30000
  const SpeechHistory: nat := 3

  /** `mobileLastRecognitionTime`, `mobileRecentTranscripts`, `mobileRecognitionCooldown`. */
  datatype TranscriptThrottle = TranscriptThrottle(lastTime: int, recent: seq<Stamped>, cooldown: bool)

  /** `mobileLastSpeechTime`, `mobileRecentSpeeches`, `mobileSpeechBlocked`. */
  datatype SpeechThrottle = SpeechThrottle(lastTime: int, recent: seq<Stamped>, blocked: bool)

  const InitialTranscriptThrottle: TranscriptThrottle := TranscriptThrottle(0, [], false)
  const InitialSpeechThrottle: SpeechThrottle := SpeechThrottle(0, [], false)

  /** An entry younger than the window whose text equals `t` ignoring ASCII case. */
  predicate RecentTranscriptLike(recent: seq<Stamped>, t: string, now: int) {
    exists i :: 0 <= i < |recent| && Lower(recent[i].text) == Lower(t) && now - recent[i].time < TranscriptRepeatWindow
  }

  /** `canAddMobileTranscript`. Off mobile every transcript passes; on mobile one
      passes only outside the cooldown, a second or more after the last append, and
      when no entry of the last five seconds holds the same text ignoring case. */
  function CanAddMobileTranscript(isMobile: bool, th: TranscriptThrottle, t: string, now: int): (r: bool)
    ensures !isMobile ==> r
    ensures r && isMobile ==> !th.cooldown && now - th.lastTime >= MinTranscriptGap
    ensures r && isMobile ==>
      forall i :: 0 <= i < |th.recent| && Lower(th.recent[i].text) == Lower(t) ==> now - th.recent[i].time >= TranscriptRepeatWindow
  {
    !isMobile
    || (!th.cooldown && now - th.lastTime >= MinTranscriptGap && !RecentTranscriptLike(th.recent, t, now))
  }

  /** The throttle after `recordMobileTranscript` on a mobile device. */
  function TranscriptRecorded(th: TranscriptThrottle, t: string, now: int): (r: TranscriptThrottle)
    ensures r.lastTime == now && r.cooldown
    ensures 0 < |r.recent| <= TranscriptHistory && r.recent[|r.recent| - 1] == Stamped(t, now)
    ensures |th.recent| < TranscriptHistory ==> r.recent == th.recent + [Stamped(t, now)]
  {
    th.(lastTime := now, recent := PushCapped(th.recent, Stamped(t, now), TranscriptHistory), cooldown := true)
  }

  /** Once recorded, a transcript is refused until the cooldown timer fires. */
  lemma RecordedTranscriptCoolsDown(th: TranscriptThrottle, t: string, now: int, u: string, later: int)
    ensures !CanAddMobileTranscript(true, TranscriptRecorded(th, t, now), u, later)
  {
  }

  /** Even after the cooldown, a transcript is refused within a second of the last
      append, and a case-insensitive repeat is refused for five seconds. */
  lemma RecordedTranscriptBlocksRepeats(th: TranscriptThrottle, t: string, now: int, u: string, later: int)
    requires later - now < MinTranscriptGap || (Lower(u) == Lower(t) && later - now < TranscriptRepeatWindow)
    ensures !CanAddMobileTranscript(true, TranscriptRecorded(th, t, now).(cooldown := false), u, later)
  {
    var r := TranscriptRecorded(th, t, now);
    assert Lower(u) == Lower(t) && later - now < TranscriptRepeatWindow ==>
      Lower(r.recent[|r.recent| - 1].text) == Lower(u) && later - r.recent[|r.recent| - 1].time < TranscriptRepeatWindow;
  }

  /** After the cooldown and the one-second gap, a transcript unlike every entry
      still in the history is accepted. */
  lemma RecordedTranscriptAdmitsOthers(th: TranscriptThrottle, t: string, now: int, u: string, later: int)
    requires later - now >= MinTranscriptGap && Lower(u) != Lower(t)
    requires forall e :: e in th.recent ==> Lower(e.text) != Lower(u)
    ensures CanAddMobileTranscript(true, TranscriptRecorded(th, t, now).(cooldown := false), u, later)
  {
    var r := TranscriptRecorded(th, t, now).recent;
    forall i | 0 <= i < |r| ensures Lower(r[i].text) != Lower(u) {
      if i < |r| - 1 {
        assert r[i] == r[..|r| - 1][i];
        assert r[i] in th.recent;
      }
    }
  }

  /** `canStartMobileSpeech`; `engineBusy` stands for
      `speechSynthesis.speaking || speechSynthesis.pending || speechSynthesisActive`. */
  function CanStartMobileSpeech(th: SpeechThrottle, engineBusy: bool, text: string, now: int): (r: bool)
    ensures r ==> !th.blocked && !engineBusy && now - th.lastTime >= MinSpeechGap
    ensures r ==>
      forall i :: 0 <= i < |th.recent| && th.recent[i].text == text ==> now - th.recent[i].time >= SpeechRepeatWindow
  {
    && !th.blocked
    && !engineBusy
    && now - th.lastTime >= MinSpeechGap
    && !(exists i :: 0 <= i < |th.recent| && th.recent[i].text == text && now - th.recent[i].time < SpeechRepeatWindow)
  }

  /** The throttle after `recordMobileSpeech`. */
  function SpeechRecorded(th: SpeechThrottle, text: string, now: int): (r: SpeechThrottle)
    ensures r.lastTime == now && r.blocked
    ensures 0 < |r.recent| <= SpeechHistory && r.recent[|r.recent| - 1] == Stamped(text, now)
    ensures |th.recent| < SpeechHistory ==> r.recent == th.recent + [Stamped(text, now)]
  {
    th.(lastTime := now, recent := PushCapped(th.recent, Stamped(text, now), SpeechHistory), blocked := true)
  }

  /** Once the block is lifted, speech is still refused for three seconds, and the
      same text for thirty. */
  lemma RecordedSpeechBlocksRepeats(th: SpeechThrottle, text: string, now: int, other: string, later: int)
    requires later - now < MinSpeechGap || (other == text && later - now < SpeechRepeatWindow)
    ensures !CanStartMobileSpeech(SpeechRecorded(th, text, now).(blocked := false), false, other, later)
  {
    var r := SpeechRecorded(th, text, now);
    assert r.recent[|r.recent| - 1].text == text;
  }

  /** A reset throttle admits any transcript once a second has passed since time
      zero, and any speech once three seconds have. */
  lemma ResetThrottlesAdmit(t: string, now: int)
    ensures CanAddMobileTranscript(true, InitialTranscriptThrottle, t, now) <==> now >= MinTranscriptGap
    ensures CanStartMobileSpeech(InitialSpeechThrottle, false, t, now) <==> now >= MinSpeechGap
  {
  }

  // ---------------------------------------------------------------------------
  // The page's dictation state

  /** Outcomes of the mobile speak button. */
  datatype SpeakOutcome = NothingToSpeak | NoSynthesis | SpeechStopped | WaitProtection | SpeechStarted(text: string)

  /** Messages the recognition `onend` handler shows. */
  datatype EndMessage = RecordingEnded | RecordingStopped

  /** Whether a final transcript is appended: non-empty, not the last accepted
      transcript, and (on mobile) let through by the throttle. */
  function AcceptsTranscript(isMobile: bool, last: string, th: TranscriptThrottle, t: string, now: int): (r: bool)
    ensures r ==> t != [] && t != last
    ensures !isMobile ==> (r <==> t != [] && t != last)
  {
    t != [] && t != last && CanAddMobileTranscript(isMobile, th, t, now)
  }

  class Dictation {
    const isMobile: bool
    /** `textArea.value` */
    var text: string
    /** `recognition._lastRecognizedText` */
    var lastRecognized: string
    /** `recognition._isListening`, `recognition._userStopped` */
    var isListening: bool
    var userStopped: bool
    var transcripts: TranscriptThrottle
    var speeches: SpeechThrottle
    /** `speechSynthesisActive` */
    var speechActive: bool

    ghost predicate Valid()
      reads this
    {
      |transcripts.recent| <= TranscriptHistory && |speeches.recent| <= SpeechHistory
    }

    constructor (isMobile: bool, text: string)
      ensures Valid()
      ensures this.isMobile == isMobile && this.text == text && lastRecognized == []
      ensures !isListening && !userStopped && !speechActive
      ensures transcripts == InitialTranscriptThrottle && speeches == InitialSpeechThrottle
    {
      this.isMobile := isMobile;
      this.text := text;
      lastRecognized := [];
      isListening := false;
      userStopped := false;
      transcripts := InitialTranscriptThrottle;
      speeches := InitialSpeechThrottle;
      speechActive := false;
    }

    /** `recordMobileTranscript`: nothing off mobile. */
    method RecordMobileTranscript(t: string, now: int)
      requires Valid()
      modifies this`transcripts
      ensures Valid()
      ensures transcripts == if isMobile then TranscriptRecorded(old(transcripts), t, now) else old(transcripts)
    {
      if !isMobile {
        return;
      }
      transcripts := transcripts.(lastTime := now);
      transcripts := transcripts.(recent := PushCapped(transcripts.recent, Stamped(t, now), TranscriptHistory));
      transcripts := transcripts.(cooldown := true);
    }

    /** The 800 ms cooldown timer fires. */
    method TranscriptCooldownExpired()
      requires Valid()
      modifies this`transcripts
      ensures Valid() && transcripts == old(transcripts).(cooldown := false)
    {
      transcripts := transcripts.(cooldown := false);
    }

    /** `handleRecognitionResults`. `checkNow` and `recordNow` are the two clock
        readings taken by `canAddMobileTranscript` and `recordMobileTranscript`. */
    method HandleResults(results: seq<SpeechResult>, checkNow: int, recordNow: int)
      requires Valid() && WellFormedEvent(results)
      modifies this`text, this`lastRecognized, this`transcripts
      ensures Valid()
      ensures var t := LatestTranscript(results);
        var accepted := Latest(results).isFinal && AcceptsTranscript(isMobile, old(lastRecognized), old(transcripts), t, checkNow);
        && text == (if accepted then AppendSeparated(old(text), t) else old(text))
        && lastRecognized == (if accepted then t else old(lastRecognized))
        && transcripts == (if accepted && isMobile then TranscriptRecorded(old(transcripts), t, recordNow) else old(transcripts))
      ensures !Latest(results).isFinal ==>
        text == old(text) && lastRecognized == old(lastRecognized) && transcripts == old(transcripts)
    {
      var current := results[|results| - 1];
      if current.isFinal {
        var t := Trim(current.alternatives[0].transcript);
        if t != [] && t != lastRecognized {
          if isMobile && !CanAddMobileTranscript(isMobile, transcripts, t, checkNow) {
            return;
          }
          assert AcceptsTranscript(isMobile, lastRecognized, transcripts, t, checkNow);
          if text != [] && !EndsWith(text, " ") {
            text := text + " ";
          }
          text := text + t;
          lastRecognized := t;
          if isMobile {
            RecordMobileTranscript(t, recordNow);
          }
        }
      }
    }

    /** The record button. Without recognition support nothing happens. When
        listening, the user stops the session; otherwise, once the microphone is
        granted, listening starts, and a `start()` that throws clears the flag again. */
    method ClickRecord(supported: bool, micGranted: bool, startThrows: bool) returns (request: EngineRequest)
      requires Valid()
      modifies this`isListening, this`userStopped
      ensures Valid()
      ensures !supported ==> request == NoRequest && isListening == old(isListening) && userStopped == old(userStopped)
      ensures supported && old(isListening) ==> request == StopRequested && !isListening && userStopped
      ensures supported && !old(isListening) && !micGranted ==>
        request == NoRequest && !isListening && userStopped == old(userStopped)
      ensures supported && !old(isListening) && micGranted ==>
        request == StartRequested && isListening == !startThrows && userStopped == old(userStopped)
    {
      if !supported {
        return NoRequest;
      }
      if isListening {
        isListening := false;
        userStopped := true;
        return StopRequested;
      }
      if !micGranted {
        return NoRequest;
      }
      isListening := true;
      request := StartRequested;
      if startThrows {
        isListening := false;
      }
    }

    /** `recognition.onstart` */
    method OnStart()
      modifies this`isListening
      ensures isListening
    {
      isListening := true;
    }

    /** `recognition.onerror`: every error ends listening. */
    method OnError()
      modifies this`isListening
      ensures !isListening
    {
      isListening := false;
    }

    /** `recognition.onend`: listening ends, the mobile transcript throttle is reset,
        and the message says whether the user asked for the stop. */
    method OnEnd() returns (message: EndMessage)
      requires Valid()
      modifies this`isListening, this`userStopped, this`transcripts
      ensures Valid()
      ensures !isListening && !userStopped
      ensures message == if old(userStopped) then RecordingStopped else RecordingEnded
      ensures transcripts == if isMobile then InitialTranscriptThrottle else old(transcripts)
    {
      isListening := false;
      if isMobile {
        transcripts := InitialTranscriptThrottle;
      }
      if !userStopped {
        message := RecordingEnded;
      } else {
        message := RecordingStopped;
        userStopped := false;
      }
    }

    /** `recordMobileSpeech` */
    method RecordMobileSpeech(spoken: string, now: int)
      requires Valid()
      modifies this`speeches
      ensures Valid() && speeches == SpeechRecorded(old(speeches), spoken, now)
    {
      speeches := speeches.(lastTime := now);
      speeches := speeches.(recent := PushCapped(speeches.recent, Stamped(spoken, now), SpeechHistory));
      speeches := speeches.(blocked := true);
    }

    /** The three-second unblock timer fires. */
    method SpeechUnblocked()
      requires Valid()
      modifies this`speeches
      ensures Valid() && speeches == old(speeches).(blocked := false)
    {
      speeches := speeches.(blocked := false);
    }

    /** `handleMobileSpeech`, with the presence of `speechSynthesis` and the
        engine's `speaking` and `pending` flags as parameters. A running speech is
        cancelled; otherwise the throttle decides and a permitted speech is recorded
        before it starts. The throttle check and the record each read the clock, so
        they get a reading each: `checkNow` and `recordNow`. */
    method HandleMobileSpeech(synthesisAvailable: bool, speaking: bool, pending: bool, checkNow: int, recordNow: int)
      returns (outcome: SpeakOutcome)
      requires Valid()
      modifies this`speeches, this`speechActive
      ensures Valid()
      ensures var spoken := Trim(text);
        var kept := speeches == old(speeches) && speechActive == old(speechActive);
        if spoken == [] then outcome == NothingToSpeak && kept
        else if !synthesisAvailable then outcome == NoSynthesis && kept
        else if old(speechActive) || speaking then outcome == SpeechStopped && !speechActive && speeches == old(speeches)
        else if !CanStartMobileSpeech(old(speeches), pending, spoken, checkNow) then outcome == WaitProtection && kept
        else
          outcome == SpeechStarted(spoken) && speeches == SpeechRecorded(old(speeches), spoken, recordNow)
          && speechActive == old(speechActive)
    {
      var spoken := Trim(text);
      if spoken == [] {
        return NothingToSpeak;
      }
      if !synthesisAvailable {
        return NoSynthesis;
      }
      if speechActive || speaking {
        speechActive := false;
        return SpeechStopped;
      }
      if !CanStartMobileSpeech(speeches, speaking || pending || speechActive, spoken, checkNow) {
        return WaitProtection;
      }
      RecordMobileSpeech(spoken, recordNow);
      outcome := SpeechStarted(spoken);
    }

    /** `window.forceSpeechCleanup`, defined on mobile: the synthesis is cancelled
        and both throttles return to their initial state. */
    method ForceCleanup()
      requires Valid() && isMobile
      modifies this`speeches, this`transcripts, this`speechActive
      ensures Valid() && !speechActive
      ensures speeches == InitialSpeechThrottle && transcripts == InitialTranscriptThrottle
    {
      speechActive := false;
      speeches := speeches.(blocked := false);
      speeches := speeches.(lastTime := 0, recent := []);
      transcripts := TranscriptThrottle(0, [], false);
    }

    /** The page becoming hidden, which runs both `visibilitychange` listeners in
        the order they were added. On mobile the first one meets a running speech
        with `forceSpeechCleanup`, which also resets both throttles. The general one
        then cancels a speech still running and stops a listening session as if the
        user had stopped it. */
    method PageHidden() returns (cancelled: bool, request: EngineRequest)
      requires Valid()
      modifies this`speechActive, this`isListening, this`userStopped, this`speeches, this`transcripts
      ensures Valid()
      ensures cancelled == old(speechActive) && !speechActive
      ensures request == if old(isListening) then StopRequested else NoRequest
      ensures !isListening && userStopped == (old(userStopped) || old(isListening))
      ensures isMobile && old(speechActive) ==>
        speeches == InitialSpeechThrottle && transcripts == InitialTranscriptThrottle
      ensures !(isMobile && old(speechActive)) ==>
        speeches == old(speeches) && transcripts == old(transcripts)
    {
      cancelled := speechActive;
      if isMobile && speechActive {
        ForceCleanup();
      }
      if speechActive {
        speechActive := false;
      }
      request := NoRequest;
      if isListening {
        isListening := false;
        userStopped := true;
        request := StopRequested;
      }
    }

    /** The utterance's `onstart`. */
    method SpeechBegan()
      modifies this`speechActive
      ensures speechActive
    {
      speechActive := true;
    }

    /** The utterance's `onend` or `onerror`. */
    method SpeechFinished()
      modifies this`speechActive
      ensures !speechActive
    {
      speechActive := false;
    }
  }

  /** On mobile, hiding the page while speech runs clears the transcript throttle,
      so any transcript is admitted from a clock reading of one second on, even
      one just refused as too soon or as a repeat. */
  method HiddenSpeechAdmitsTranscripts(d: Dictation, t: string, now: int)
    requires d.Valid() && d.isMobile && d.speechActive && now >= MinTranscriptGap
    modifies d
    ensures CanAddMobileTranscript(d.isMobile, d.transcripts, t, now)
  {
    var cancelled, request := d.PageHidden();
    ResetThrottlesAdmit(t, now);
  }

  /** A session stopped because the page was hidden ends with the "stopped"
      message, as if the user had stopped it. */
  method HideThenEnd(d: Dictation) returns (message: EndMessage)
    requires d.Valid() && d.isListening
    modifies d
    ensures message == RecordingStopped && !d.isListening && !d.userStopped
  {
    var cancelled, request := d.PageHidden();
    message := d.OnEnd();
  }
}
