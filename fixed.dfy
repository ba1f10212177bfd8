/**
 * The recognition state of `fixed_script.js`: the text area, the last accepted
 * transcript and a buffer of the five most recent accepted transcripts, with the
 * filter that decides whether a final transcript is appended, the mobile restart
 * that trims the buffer, and the listening flag.
 *
 * As written, the filter rejects a transcript that starts with the last accepted
 * transcript. The last accepted transcript starts out empty and every string
 * starts with the empty string, so nothing is ever accepted: `Pristine()` below
 * holds initially and every method keeps it.
 */
module Fixed {
  import opened Text
  import opened Speech

  const BufferCapacity: nat := 5
  const RestartKeep: nat := 3

  /** A buffered transcript and a new one overlap when they are equal or one
      contains the other. */
  predicate Overlaps(buffered: string, t: string) {
    t == buffered || Contains(buffered, t) || Contains(t, buffered)
  }

  /** Whether some buffered transcript overlaps `t`. */
  predicate OverlapsBuffer(buffer: seq<string>, t: string) {
    exists j :: 0 <= j < |buffer| && Overlaps(buffer[j], t)
  }

  /** The filter applied to a trimmed final transcript. What it admits differs from
      the last text and from every buffered entry. */
  function Accepts(last: string, buffer: seq<string>, t: string): (r: bool)
    ensures r ==> t != last
    ensures r ==> forall j :: 0 <= j < |buffer| ==> buffer[j] != t
  {
    && t != []
    && !StartsWith(t, last)
    && !EndsWith(last, t)
    && !OverlapsBuffer(buffer, t)
  }

  /** While the last accepted transcript is empty, every transcript is rejected:
      every string starts with the empty string. */
  lemma EmptyLastRejectsAll(buffer: seq<string>, t: string)
    ensures !Accepts([], buffer, t)
  {
    assert t[..0] == [];
  }

  /** The filter as evidently intended: the prefix and suffix tests against the
      last accepted transcript apply only once there is one. */
  function AcceptsIntended(last: string, buffer: seq<string>, t: string): (r: bool)
    ensures r ==> t != last && forall j :: 0 <= j < |buffer| ==> buffer[j] != t
    ensures last == [] && buffer == [] ==> (r <==> t != [])
  {
    && t != []
    && (last == [] || (!StartsWith(t, last) && !EndsWith(last, t)))
    && !OverlapsBuffer(buffer, t)
  }

  /** The intended filter accepts the first non-empty transcript, and once a
      transcript has been accepted it agrees with the filter as written. */
  lemma IntendedFilterAgrees(last: string, buffer: seq<string>, t: string)
    ensures t != [] ==> AcceptsIntended([], [], t)
    ensures last != [] ==> (AcceptsIntended(last, buffer, t) <==> Accepts(last, buffer, t))
    ensures Accepts(last, buffer, t) ==> AcceptsIntended(last, buffer, t)
  {
  }

  lemma ContainsItself(s: string)
    ensures Contains(s, s)
  {
    assert OccursAt(s, s, 0);
  }

  /** Once `t` is accepted, the next transcript is rejected if it contains `t` or
      lies inside it, in particular if it repeats `t`. */
  lemma AcceptedBlocksOverlaps(last: string, buffer: seq<string>, t: string, u: string)
    requires AcceptsIntended(last, buffer, t)
    requires Contains(u, t) || Contains(t, u)
    ensures !AcceptsIntended(t, PushShift(buffer, t, BufferCapacity), u)
  {
    var b := PushShift(buffer, t, BufferCapacity);
    assert Overlaps(b[|b| - 1], u);
  }

  /** A buffered transcript at `j` overlaps any transcript that contains it. */
  lemma BufferedEntryBlocksExtensions(buffer: seq<string>, j: int, u: string, k: int)
    requires 0 <= j < |buffer| && OccursAt(u, buffer[j], k)
    ensures forall last :: !AcceptsIntended(last, buffer, u)
  {
    assert Overlaps(buffer[j], u);
  }

  /** The buffer and last text after a mobile restart: with more than three entries,
      only the newest three stay and the last text becomes them joined by spaces. */
  function RestartTrim(buffer: seq<string>, last: string): (r: (seq<string>, string))
    ensures |r.0| == if |buffer| > RestartKeep then RestartKeep else |buffer|
    ensures r.0 == buffer[|buffer| - |r.0|..]
    ensures r.1 == if |buffer| > RestartKeep then Join(r.0, " ") else last
  {
    if |buffer| > RestartKeep then
      var kept := buffer[|buffer| - RestartKeep..];
      (kept, Join(kept, " "))
    else
      (buffer, last)
  }

  /** A joined list starts with its first part and ends with its last. */
  lemma {:induction false} JoinBounds(parts: seq<string>, sep: string)
    requires |parts| > 0
    ensures StartsWith(Join(parts, sep), parts[0])
    ensures EndsWith(Join(parts, sep), parts[|parts| - 1])
    decreases |parts|
  {
    if |parts| > 1 {
      JoinBounds(parts[1..], sep);
      var rest := Join(parts[1..], sep);
      assert Join(parts, sep) == parts[0] + sep + rest;
      assert (parts[0] + sep + rest)[..|parts[0]|] == parts[0];
      assert parts[1..][|parts[1..]| - 1] == parts[|parts| - 1];
      assert (parts[0] + sep + rest)[|parts[0] + sep + rest| - |parts[|parts| - 1]|..]
        == rest[|rest| - |parts[|parts| - 1]|..];
    }
  }

  /** After a trimming restart, a repeat of the newest buffered transcript is
      rejected twice over: by the suffix test and by the buffer. */
  lemma TrimmedRestartRejectsNewest(buffer: seq<string>, last: string)
    requires |buffer| > RestartKeep
    ensures var (b, l) := RestartTrim(buffer, last);
      var newest := buffer[|buffer| - 1];
      EndsWith(l, newest) && OverlapsBuffer(b, newest) && !AcceptsIntended(l, b, newest)
  {
    var (b, l) := RestartTrim(buffer, last);
    JoinBounds(b, " ");
    assert b[|b| - 1] == buffer[|buffer| - 1];
    ContainsItself(b[|b| - 1]);
    assert Overlaps(b[|b| - 1], buffer[|buffer| - 1]);
  }

  /** The scan of the buffer for an overlapping entry, stopping at the first. */
  method FindRepetition(buffer: seq<string>, t: string) returns (isRepetition: bool)
    ensures isRepetition <==> OverlapsBuffer(buffer, t)
  {
    isRepetition := false;
    var i := 0;
    while i < |buffer|
      invariant 0 <= i <= |buffer|
      invariant forall j :: 0 <= j < i ==> !Overlaps(buffer[j], t)
    {
      if t == buffer[i] || Contains(buffer[i], t) || Contains(t, buffer[i]) {
        isRepetition := true;
        break;
      }
      i := i + 1;
    }
  }

  class Dictation {
    const isMobile: bool
    /** `textArea.value` */
    var text: string
    /** `recognition._lastRecognizedText`, `recognition._textBuffer`, `recognition._isListening` */
    var lastRecognized: string
    var buffer: seq<string>
    var isListening: bool

    ghost predicate Valid()
      reads this
    {
      |buffer| <= BufferCapacity
    }

    /** Nothing accepted: the state the recogniser starts in. */
    ghost predicate Pristine()
      reads this
    {
      lastRecognized == [] && buffer == []
    }

    /** The recogniser as created; on desktop the two fields start undefined and the
        result handler sets them to the same empty values before its first use. */
    constructor (isMobile: bool, text: string)
      ensures Valid() && Pristine()
      ensures this.isMobile == isMobile && this.text == text && !isListening
    {
      this.isMobile := isMobile;
      this.text := text;
      lastRecognized := [];
      buffer := [];
      isListening := false;
    }

    /** `handleRecognitionResults` */
    method HandleResults(results: seq<SpeechResult>)
      requires Valid() && WellFormedEvent(results)
      modifies this`text, this`lastRecognized, this`buffer
      ensures Valid()
      ensures var t := LatestTranscript(results);
        var accepted := Latest(results).isFinal && Accepts(old(lastRecognized), old(buffer), t);
        && text == (if accepted then AppendWithSpace(old(text), t) else old(text))
        && buffer == (if accepted then PushShift(old(buffer), t, BufferCapacity) else old(buffer))
        && lastRecognized == (if accepted then t else old(lastRecognized))
      ensures !Latest(results).isFinal ==>
        text == old(text) && buffer == old(buffer) && lastRecognized == old(lastRecognized)
      ensures old(Pristine()) ==> Pristine() && text == old(text)
    {
      var current := results[|results| - 1];
      if current.isFinal {
        var t := Trim(current.alternatives[0].transcript);
        if t != [] && !StartsWith(t, lastRecognized) && !EndsWith(lastRecognized, t) {
          var isRepetition := FindRepetition(buffer, t);
          if !isRepetition {
            if text != [] {
              text := text + " " + t;
            } else {
              text := t;
            }
            buffer := buffer + [t];
            if |buffer| > BufferCapacity {
              buffer := buffer[1..];
            }
            lastRecognized := t;
          }
        }
      }
    }

    /** The record button: nothing without recognition support; otherwise stop
        when listening, or start once the microphone is granted, where a `start()`
        that throws clears the flag. */
    method ClickRecord(supported: bool, micGranted: bool, startThrows: bool) returns (request: EngineRequest)
      modifies this`isListening
      ensures !supported ==> request == NoRequest && isListening == old(isListening)
      ensures supported && old(isListening) ==> request == StopRequested && !isListening
      ensures supported && !old(isListening) && !micGranted ==> request == NoRequest && !isListening
      ensures supported && !old(isListening) && micGranted ==>
        request == StartRequested && isListening == !startThrows
    {
      if !supported {
        return NoRequest;
      }
      if isListening {
        isListening := false;
        return StopRequested;
      }
      if !micGranted {
        return NoRequest;
      }
      isListening := true;
      request := StartRequested;
      if startThrows {
        isListening := false;
      }
    }

    /** `recognition.onstart`: only on mobile does the handler set the flag. */
    method OnStart()
      modifies this`isListening
      ensures isListening == (old(isListening) || isMobile)
    {
      if isMobile {
        isListening := true;
      }
    }

    /** `recognition.onspeechend`: desktop sessions are stopped when speech ends;
        mobile sessions are left to end on their own. */
    method OnSpeechEnd() returns (request: EngineRequest)
      ensures request == if isMobile then NoRequest else StopRequested
    {
      request := NoRequest;
      if !isMobile {
        request := StopRequested;
      }
    }

    /** `recognition.onerror`: on mobile, network and permission errors end listening. */
    method OnError(code: string)
      modifies this`isListening
      ensures isListening == (old(isListening) && !(isMobile && code in {"network", "service-not-allowed", "not-allowed"}))
    {
      if isMobile && code in {"network", "service-not-allowed", "not-allowed"} {
        isListening := false;
      }
    }

    /** `recognition.onend`: only a mobile session the user has not stopped restarts. */
    method OnEnd() returns (action: EndAction)
      ensures action == if isMobile && isListening then ScheduleRestart else ReportStopped
    {
      if isMobile && isListening {
        action := ScheduleRestart;
      } else {
        action := ReportStopped;
      }
    }

    /** The restart timer fires: trim the buffer, then call `start()`; a start that
        throws ends listening and reports the recording stopped. */
    method RestartFired(startThrows: bool) returns (stopped: bool)
      requires Valid()
      modifies this`buffer, this`lastRecognized, this`isListening
      ensures Valid()
      ensures (buffer, lastRecognized) == RestartTrim(old(buffer), old(lastRecognized))
      ensures isListening == (old(isListening) && !startThrows) && stopped == startThrows
      ensures old(Pristine()) ==> Pristine()
    {
      if |buffer| > RestartKeep {
        buffer := buffer[|buffer| - RestartKeep..];
        lastRecognized := Join(buffer, " ");
      }
      stopped := startThrows;
      if startThrows {
        isListening := false;
      }
    }
  }

  /** The user stops a listening session; the engine's end event that follows
      does not restart it. */
  method StopThenEnd(d: Dictation) returns (action: EndAction)
    requires d.isListening
    modifies d
    ensures action == ReportStopped
  {
    var request := d.ClickRecord(true, true, false);
    action := d.OnEnd();
  }

  /** A mobile session that starts cleanly has a restart scheduled when the
      engine ends it. */
  method MobileSessionRestarts(d: Dictation) returns (action: EndAction)
    requires d.isMobile && !d.isListening
    modifies d
    ensures action == ScheduleRestart && d.isListening
  {
    var request := d.ClickRecord(true, true, false);
    d.OnStart();
    action := d.OnEnd();
  }
}
