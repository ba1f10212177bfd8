/**
 * Shapes shared by the three dictation scripts: the part of a browser
 * `SpeechRecognitionEvent` the handlers read, the requests they make of the
 * recognition engine, and the capped histories they keep.
 */
module Speech {
  import opened Text

  datatype Option<+T> = None | Some(value: T)

  datatype Result<+T, +E> = Success(value: T) | Failure(error: E)

  /** One `SpeechRecognitionAlternative`. */
  datatype Alternative = Alternative(transcript: string, confidence: real)

  /** One `SpeechRecognitionResult`: finality and its alternatives, best first. */
  datatype SpeechResult = SpeechResult(isFinal: bool, alternatives: seq<Alternative>)

  /** What every `onresult` handler dereferences: the event holds a result and
      its most recent result holds an alternative. The engine always delivers
      such events; the scripts would throw on anything else. */
  predicate WellFormedEvent(results: seq<SpeechResult>) {
    |results| > 0 && |results[|results| - 1].alternatives| > 0
  }

  /** `event.results[event.results.length - 1]` */
  function Latest(results: seq<SpeechResult>): SpeechResult
    requires WellFormedEvent(results)
  {
    results[|results| - 1]
  }

  /** `currentResult[0].transcript.trim()` */
  function LatestTranscript(results: seq<SpeechResult>): (t: string)
    requires WellFormedEvent(results)
    ensures t == Trim(Latest(results).alternatives[0].transcript)
  {
    Trim(Latest(results).alternatives[0].transcript)
  }

  /** What a handler asks of the recognition or synthesis engine, recorded
      instead of calling the browser. */
  datatype EngineRequest = NoRequest | StartRequested | StopRequested

  /** What an `onend` handler decides: restart after the delay, or report the
      recording stopped. */
  datatype EndAction = ScheduleRestart | ReportStopped

  /** A file the page offers for download. */
  datatype Download = Download(filename: string, content: string)

  /** Why a save produced no download. */
  datatype SaveError = NothingToSave | EmptyFilename

  /** A history entry `{ text, time }`. */
  datatype Stamped = Stamped(text: string, time: int)

  /** `h.push(x); if (h.length > cap) h = h.slice(-cap)`: append, then keep only
      the `cap` most recent entries. */
  function PushCapped<T>(h: seq<T>, x: T, cap: nat): (r: seq<T>)
    requires cap > 0
    ensures |r| == if |h| + 1 > cap then cap else |h| + 1
    ensures r[|r| - 1] == x
    ensures r[..|r| - 1] == h[|h| - (|r| - 1)..]
  {
    var pushed := h + [x];
    if |pushed| > cap then pushed[|pushed| - cap..] else pushed
  }

  /** `h.push(x); if (h.length > cap) h.shift()`: append, then drop at most one
      entry from the front. */
  function PushShift<T>(h: seq<T>, x: T, cap: nat): (r: seq<T>)
    requires cap > 0
    ensures |r| == if |h| + 1 > cap then |h| else |h| + 1
    ensures r[|r| - 1] == x
    ensures r[..|r| - 1] == h[|h| - (|r| - 1)..]
  {
    var pushed := h + [x];
    if |pushed| > cap then
      assert pushed[1..] == h[1..] + [x];
      pushed[1..]
    else
      pushed
  }

  /** Below the cap nothing is evicted. */
  lemma PushCappedUnderCap<T>(h: seq<T>, x: T, cap: nat)
    requires |h| < cap
    ensures PushCapped(h, x, cap) == h + [x]
  {
  }

  /** Dropping one entry with `shift` and keeping the last `cap` with `slice`
      agree whenever the history was within its cap. */
  lemma PushShiftIsPushCapped<T>(h: seq<T>, x: T, cap: nat)
    requires 0 < cap && |h| <= cap
    ensures PushShift(h, x, cap) == PushCapped(h, x, cap)
  {
  }
}
