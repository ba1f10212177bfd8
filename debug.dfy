/**
 * The recognition part of the `SpeechifyDebug` object of `debug.js`: a log of
 * recognition events kept newest first and capped at 50 entries, the instance
 * being watched, the status view, and the handlers `injectDebugIntoRecognition`
 * wraps around a recognizer's own.
 */
module DebugLog {
  import opened Speech

  const MaxEvents: nat := 50
  const StatusEvents: nat := 5

  /** The `data` a wrapped handler logs. */
  datatype EventData =
    | NoData
    | ErrorData(error: string, message: string)
    | ResultData(resultIndex: int, results: seq<SpeechResult>)

  /** `{ timestamp, type, data }`; the timestamp is the clock reading passed in. */
  datatype Event = Event(timestamp: string, kind: string, data: EventData)

  /** The log after `logEvent(e)`: `unshift`, then `pop` once when over the cap. */
  function Logged(events: seq<Event>, e: Event): (r: seq<Event>)
    ensures |r| == if |events| + 1 > MaxEvents then |events| else |events| + 1
    ensures r[0] == e && r[1..] == events[..|r| - 1]
  {
    var pushed := [e] + events;
    if |pushed| > MaxEvents then pushed[..|pushed| - 1] else pushed
  }

  /** Logging keeps a log within its cap. */
  lemma LoggedStaysCapped(events: seq<Event>, e: Event)
    requires |events| <= MaxEvents
    ensures |Logged(events, e)| <= MaxEvents
  {
  }

  /** On a full log the oldest entry goes and the others move down one place. */
  lemma LoggedFullDropsOldest(events: seq<Event>, e: Event)
    requires |events| == MaxEvents
    ensures Logged(events, e) == [e] + events[..MaxEvents - 1]
  {
    var r := Logged(events, e);
    assert r == [r[0]] + r[1..];
  }

  function Reversed(s: seq<Event>): (r: seq<Event>)
    ensures |r| == |s|
    ensures forall i :: 0 <= i < |s| ==> r[i] == s[|s| - 1 - i]
  {
    if s == [] then [] else Reversed(s[1..]) + [s[0]]
  }

  lemma {:induction false} ReversedAppend(s: seq<Event>, e: Event)
    ensures Reversed(s + [e]) == [e] + Reversed(s)
  {
    if s != [] {
      assert (s + [e])[1..] == s[1..] + [e];
      ReversedAppend(s[1..], e);
    } else {
      assert [e][1..] == [];
    }
  }

  /** The reference the log is measured against: of all events ever logged, in
      the order they happened, the 50 most recent, newest first. */
  function Recent(history: seq<Event>): (r: seq<Event>)
    ensures |r| == if |history| > MaxEvents then MaxEvents else |history|
    ensures forall i :: 0 <= i < |r| ==> r[i] == history[|history| - 1 - i]
  {
    var all := Reversed(history);
    if |all| > MaxEvents then all[..MaxEvents] else all
  }

  /** Logging one more event keeps the log equal to the reference. */
  lemma LoggedIsRecent(history: seq<Event>, e: Event)
    ensures Logged(Recent(history), e) == Recent(history + [e])
  {
    ReversedAppend(history, e);
    var all := Reversed(history);
    var l := Logged(Recent(history), e);
    var m := Recent(history + [e]);
    assert |l| == |m|;
    forall i | 0 <= i < |l|
      ensures l[i] == m[i]
    {
      if i > 0 {
        assert l[i] == l[1..][i - 1];
      }
    }
  }

  /** The part of a recognizer the status view reads. `_isListening` may be unset. */
  class Recognition {
    var isListening: Option<bool>
    var continuous: bool
    var interimResults: bool
    var lang: string
    var maxAlternatives: int

    constructor (continuous: bool, interimResults: bool, lang: string, maxAlternatives: int)
      ensures isListening == None && this.continuous == continuous
      ensures this.interimResults == interimResults && this.lang == lang
      ensures this.maxAlternatives == maxAlternatives
    {
      isListening := None;
      this.continuous := continuous;
      this.interimResults := interimResults;
      this.lang := lang;
      this.maxAlternatives := maxAlternatives;
    }
  }

  /** What `showStatus` returns. */
  datatype Status =
    | NoInstance
    | Snapshot(isListening: bool, continuous: bool, interimResults: bool, lang: string,
               maxAlternatives: int, events: seq<Event>)

  /** A handler `injectDebugIntoRecognition` wraps, with the event it receives. */
  datatype Handler =
    | OnStart
    | OnEnd
    | OnError(error: string, message: string)
    | OnResult(resultIndex: int, results: seq<SpeechResult>)
    | OnSpeechEnd

  /** The event types the wrappers log. */
  const HandlerKinds: set<string> := {"start", "end", "error", "result", "speechend"}

  /** The event type a wrapped handler logs. */
  function KindOf(h: Handler): (r: string)
    ensures r in HandlerKinds
  {
    match h
    case OnStart => "start"
    case OnEnd => "end"
    case OnError(_, _) => "error"
    case OnResult(_, _) => "result"
    case OnSpeechEnd => "speechend"
  }

  /** Each handler logs under a type of its own. */
  lemma KindsDistinct(g: Handler, h: Handler)
    requires KindOf(g) == KindOf(h)
    ensures g.OnStart? == h.OnStart? && g.OnEnd? == h.OnEnd? && g.OnError? == h.OnError?
    ensures g.OnResult? == h.OnResult? && g.OnSpeechEnd? == h.OnSpeechEnd?
  {
    var k := KindOf(g);
    assert |k| == |KindOf(h)| && k[0] == KindOf(h)[0];
  }

  /** The data a wrapped handler logs: the error and its message, or a plain
      copy of the results; the other handlers log an empty object. */
  function DataOf(h: Handler): (r: EventData)
    ensures r.ErrorData? <==> h.OnError?
    ensures r.ResultData? <==> h.OnResult?
    ensures h.OnError? ==> r.error == h.error && r.message == h.message
    ensures h.OnResult? ==> r.resultIndex == h.resultIndex && r.results == h.results
  {
    match h
    case OnError(error, message) => ErrorData(error, message)
    case OnResult(resultIndex, results) => ResultData(resultIndex, results)
    case _ => NoData
  }

  /** The nested loops of the result wrapper, which copy every result and every
      alternative into plain objects. */
  method CopyResults(results: seq<SpeechResult>) returns (copy: seq<SpeechResult>)
    ensures copy == results
  {
    copy := [];
    for i := 0 to |results|
      invariant copy == results[..i]
    {
      var result := results[i];
      var alternatives: seq<Alternative> := [];
      for j := 0 to |result.alternatives|
        invariant alternatives == result.alternatives[..j]
      {
        var alternative := result.alternatives[j];
        alternatives := alternatives + [Alternative(alternative.transcript, alternative.confidence)];
      }
      assert alternatives == result.alternatives;
      copy := copy + [SpeechResult(result.isFinal, alternatives)];
    }
  }

  /** `SpeechifyDebug.recognition` */
  class RecognitionDebug {
    var instance: Recognition?
    var events: seq<Event>

    ghost predicate Valid()
      reads this
    {
      |events| <= MaxEvents
    }

    constructor ()
      ensures Valid() && instance == null && events == []
    {
      instance := null;
      events := [];
    }

    /** `init`: only the watched instance changes. */
    method Init(recognition: Recognition?)
      modifies this`instance
      ensures instance == recognition && events == old(events)
    {
      instance := recognition;
    }

    /** `logEvent` */
    method LogEvent(kind: string, data: EventData, now: string)
      requires Valid()
      modifies this`events
      ensures Valid() && events == Logged(old(events), Event(now, kind, data))
    {
      events := [Event(now, kind, data)] + events;
      if |events| > MaxEvents {
        events := events[..|events| - 1];
      }
    }

    /** `getEvents`, which hands out the log itself; here a copy of its value. */
    method GetEvents() returns (r: seq<Event>)
      ensures r == events
    {
      r := events;
    }

    /** `clearEvents` */
    method ClearEvents()
      modifies this`events
      ensures Valid() && events == []
    {
      events := [];
    }

    /** `showStatus`: no instance, or the instance's settings, its flag read as
        false when unset, and the five newest events. */
    method ShowStatus() returns (s: Status)
      ensures instance == null ==> s == NoInstance
      ensures instance != null ==>
        && s.Snapshot?
        && s.isListening == (instance.isListening == Some(true))
        && s.continuous == instance.continuous && s.interimResults == instance.interimResults
        && s.lang == instance.lang && s.maxAlternatives == instance.maxAlternatives
        && s.events == events[..if |events| < StatusEvents then |events| else StatusEvents]
    {
      if instance == null {
        return NoInstance;
      }
      var listening := instance.isListening.Some? && instance.isListening.value;
      var shown := if |events| < StatusEvents then events else events[..StatusEvents];
      s := Snapshot(listening, instance.continuous, instance.interimResults, instance.lang,
                    instance.maxAlternatives, shown);
    }

    /** A wrapped handler runs: it logs one event of its own type, then calls the
        handler it replaced if there was one. */
    method Wrapped(h: Handler, now: string, hadOriginal: bool) returns (delegated: bool)
      requires Valid()
      modifies this`events
      ensures Valid() && events == Logged(old(events), Event(now, KindOf(h), DataOf(h)))
      ensures delegated == hadOriginal
    {
      match h {
        case OnStart =>
          LogEvent("start", NoData, now);
        case OnEnd =>
          LogEvent("end", NoData, now);
        case OnError(error, message) =>
          LogEvent("error", ErrorData(error, message), now);
        case OnResult(resultIndex, results) =>
          var copy := CopyResults(results);
          LogEvent("result", ResultData(resultIndex, copy), now);
        case OnSpeechEnd =>
          LogEvent("speechend", NoData, now);
      }
      delegated := hadOriginal;
    }
  }

  /** `injectDebugIntoRecognition`: without an instance nothing happens; with one,
      the debug object watches it and its handlers are wrapped. */
  method Inject(debug: RecognitionDebug, recognition: Recognition?) returns (wrapped: bool)
    modifies debug`instance
    ensures recognition == null ==> debug.instance == old(debug.instance) && !wrapped
    ensures recognition != null ==> debug.instance == recognition && wrapped
    ensures debug.events == old(debug.events)
  {
    if recognition == null {
      return false;
    }
    debug.Init(recognition);
    wrapped := true;
  }

  /** After any wrapped handler runs, the status view shows its event first. */
  method HandleThenShow(debug: RecognitionDebug, h: Handler, now: string, hadOriginal: bool) returns (s: Status)
    requires debug.Valid() && debug.instance != null
    modifies debug`events
    ensures s.Snapshot? && 0 < |s.events| <= StatusEvents
    ensures s.events[0] == Event(now, KindOf(h), DataOf(h))
  {
    var delegated := debug.Wrapped(h, now, hadOriginal);
    s := debug.ShowStatus();
  }
}
