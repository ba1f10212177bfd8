/**
 * The dictation page of `optimized_script.js`: the text area, the page-wide
 * `recognition` variable (a new recognizer on every click of the microphone
 * button), the `_isListening` flag that drives the mobile restart, and the
 * filename handling of the save dialog.
 */
module Optimized {
  import opened Text
  import opened Speech

  const StandardName: string := "SpeechRecognition"
  const PrefixedName: string := "webkitSpeechRecognition"
  /** The name the support check looks for: the standard name with a lower-case first letter. */
  const MisspelledName: string := "speechRecognition"

  /** The support check as written, over the set of names `window` defines. */
  function IsSupportedAsWritten(window: set<string>): (r: bool)
    ensures PrefixedName in window ==> r
    ensures StandardName in window && MisspelledName !in window && PrefixedName !in window ==> !r
  {
    MisspelledName in window || PrefixedName in window
  }

  /** The support check the constructor lookup after it relies on:
      `window.SpeechRecognition || window.webkitSpeechRecognition`. */
  function IsSupported(window: set<string>): (r: bool)
    ensures PrefixedName in window ==> r
    ensures MisspelledName in window && StandardName !in window && PrefixedName !in window ==> !r
  {
    StandardName in window || PrefixedName in window
  }

  /** A browser that exposes only the standard constructor is turned away by the
      check as written, although the lookup after it would succeed. */
  lemma StandardOnlyBrowserRejected()
    ensures IsSupported({StandardName}) && !IsSupportedAsWritten({StandardName})
  {
    assert MisspelledName[0] != StandardName[0];
  }

  /** Apart from a browser defining the misspelled name, the two checks differ
      exactly on the browsers that expose only the standard constructor. */
  lemma SupportChecksDiffer(window: set<string>)
    requires MisspelledName !in window
    ensures IsSupported(window) != IsSupportedAsWritten(window)
      <==> StandardName in window && PrefixedName !in window
  {
  }

  /** A click starts a recognizer exactly when the window defines the prefixed
      constructor, or both the misspelled name and the standard constructor. */
  lemma ClickStartsExactly(window: set<string>)
    ensures IsSupportedAsWritten(window) && IsSupported(window)
      <==> PrefixedName in window || (MisspelledName in window && StandardName in window)
  {
  }

  /** The characters `[<>:"/\\|?*\x00-\x1F]` matches. */
  function IsForbidden(c: char): (r: bool)
    ensures c <= '\U{1F}' ==> r
    ensures 'a' <= c <= 'z' || 'A' <= c <= 'Z' || '0' <= c <= '9' || c == ' ' || c == '.' || c == '-' || c == '_' ==> !r
  {
    c == '<' || c == '>' || c == ':' || c == '"' || c == '/' || c == '\\' || c == '|'
    || c == '?' || c == '*' || c <= '\U{1F}'
  }

  predicate IsClean(s: string) {
    forall i :: 0 <= i < |s| ==> !IsForbidden(s[i])
  }

  /** `name.replace(/[<>:"/\\|?*\x00-\x1F]/g, '')`: every forbidden character
      removed, the others kept in order. */
  function Sanitize(name: string): (r: string)
    ensures |r| <= |name| && IsClean(r)
  {
    if name == [] then []
    else (if IsForbidden(name[0]) then [] else [name[0]]) + Sanitize(name[1..])
  }

  /** Sanitising distributes over concatenation: each character is kept or
      dropped on its own. */
  lemma {:induction false} SanitizeAppend(a: string, b: string)
    ensures Sanitize(a + b) == Sanitize(a) + Sanitize(b)
  {
    if a == [] {
      assert a + b == b;
    } else {
      assert (a + b)[1..] == a[1..] + b;
      SanitizeAppend(a[1..], b);
    }
  }

  /** A name is left alone exactly when it has no forbidden character. */
  lemma {:induction false} SanitizeFixesExactlyClean(name: string)
    ensures Sanitize(name) == name <==> IsClean(name)
  {
    if name != [] {
      SanitizeFixesExactlyClean(name[1..]);
      if IsForbidden(name[0]) {
        assert |Sanitize(name)| < |name|;
      }
    }
  }

  /** Sanitising twice is sanitising once. */
  lemma SanitizeIdempotent(name: string)
    ensures Sanitize(Sanitize(name)) == Sanitize(name)
  {
    SanitizeFixesExactlyClean(Sanitize(name));
  }

  /** The save handler: the trimmed text is checked when the button is clicked,
      the trimmed filename when the dialog is confirmed; the download is the
      trimmed text under the sanitised name with `.txt` appended. */
  function SaveRequest(text: string, filenameInput: string): (r: Result<Download, SaveError>)
    ensures r.Failure? <==> Trim(text) == [] || Trim(filenameInput) == []
    ensures r.Failure? ==> (r.error == NothingToSave <==> Trim(text) == [])
    ensures r.Success? ==> r.value.content == Trim(text) && r.value.content != []
  {
    var content := Trim(text);
    if content == [] then Failure(NothingToSave)
    else
      var name := Trim(filenameInput);
      if name == [] then Failure(EmptyFilename)
      else Success(Download(Sanitize(name) + ".txt", content))
  }

  /** A saved file's name is clean, ends in `.txt`, and what comes before the
      suffix is the trimmed input with the forbidden characters removed. */
  lemma SavedNameIsClean(text: string, filenameInput: string)
    requires SaveRequest(text, filenameInput).Success?
    ensures var f := SaveRequest(text, filenameInput).value.filename;
      IsClean(f) && EndsWith(f, ".txt") && f[..|f| - 4] == Sanitize(Trim(filenameInput))
  {
    var f := SaveRequest(text, filenameInput).value.filename;
    var base := Sanitize(Trim(filenameInput));
    assert f == base + ".txt";
    assert f[..|f| - 4] == base;
    assert f[|f| - 4..] == ".txt";
  }

  /** A name made only of forbidden characters is sanitised to nothing. */
  lemma {:induction false} SanitizeForbiddenOnly(name: string)
    requires forall i :: 0 <= i < |name| ==> IsForbidden(name[i])
    ensures Sanitize(name) == []
  {
    if name != [] {
      SanitizeForbiddenOnly(name[1..]);
    }
  }

  /** A filename whose trimmed form is made only of forbidden characters passes
      the emptiness check and yields a file called just `.txt`. */
  lemma ForbiddenOnlyNameSavesBareSuffix(text: string, name: string)
    requires Trim(text) != [] && Trim(name) != []
    requires forall i :: 0 <= i < |Trim(name)| ==> IsForbidden(Trim(name)[i])
    ensures SaveRequest(text, name) == Success(Download(".txt", Trim(text)))
  {
    SanitizeForbiddenOnly(Trim(name));
    assert Sanitize(Trim(name)) + ".txt" == ".txt";
  }

  /** The object `new SpeechRecognition()` returns, with the `_isListening`
      property the page adds to it (unset reads as false). */
  class Recognizer {
    var isListening: bool
    const continuous: bool
    const interimResults: bool
    const lang: string

    constructor (isMobile: bool)
      ensures !isListening && continuous == !isMobile && interimResults && lang == "en-US"
    {
      isListening := false;
      continuous := !isMobile;
      interimResults := true;
      lang := "en-US";
    }

    /** The toggle at the end of the click handler: a listening recognizer is
        stopped, any other is started. */
    method Toggle() returns (request: EngineRequest)
      modifies this
      ensures old(isListening) ==> request == StopRequested && !isListening
      ensures !old(isListening) ==> request == StartRequested && isListening
    {
      if isListening {
        isListening := false;
        request := StopRequested;
      } else {
        isListening := true;
        request := StartRequested;
      }
    }
  }

  class Page {
    /** The user-agent test, the same on every click. */
    const isMobile: bool
    /** `textArea.value` */
    var text: string
    /** The page-wide `recognition` variable, which every handler reads. */
    var recognition: Recognizer?

    predicate Listening()
      reads this, recognition
    {
      recognition != null && recognition.isListening
    }

    constructor (isMobile: bool, text: string)
      ensures this.isMobile == isMobile && this.text == text && recognition == null
    {
      this.isMobile := isMobile;
      this.text := text;
      recognition := null;
    }

    /** The microphone button. The handler goes on only when the support check as
        written passes, and then builds a recognizer with
        `new (window.SpeechRecognition || window.webkitSpeechRecognition)()`; when
        the window defines neither of those names the construction throws and the
        handler ends there, `recognition` untouched. Otherwise the new recognizer is
        stored in `recognition` before the toggle, so the toggle always sees an
        unset flag and starts. */
    method Click(window: set<string>) returns (request: EngineRequest)
      modifies this
      ensures text == old(text)
      ensures !(IsSupportedAsWritten(window) && IsSupported(window)) ==>
        request == NoRequest && recognition == old(recognition)
      ensures IsSupportedAsWritten(window) && IsSupported(window) ==>
        && request == StartRequested
        && recognition != null && fresh(recognition)
        && recognition.isListening && recognition.continuous == !isMobile
    {
      if !IsSupportedAsWritten(window) {
        return NoRequest;
      }
      if !IsSupported(window) {
        // the constructor lookup yields `undefined` and `new` throws
        return NoRequest;
      }
      var r := new Recognizer(isMobile);
      recognition := r;
      request := r.Toggle();
    }

    /** `recognition.onstart`: only on mobile does the handler set the flag. */
    method OnStart()
      requires recognition != null
      modifies recognition
      ensures recognition.isListening == (old(recognition.isListening) || isMobile)
    {
      if isMobile {
        recognition.isListening := true;
      }
    }

    /** `recognition.onspeechend`: every session is stopped when speech ends. */
    method OnSpeechEnd() returns (request: EngineRequest)
      requires recognition != null
      ensures request == StopRequested
    {
      request := StopRequested;
    }

    /** `recognition.onresult`: a final result with a non-empty trimmed transcript
        is appended after one space, or becomes the text when the text is empty.
        The mobile and desktop branches do the same. */
    method OnResult(results: seq<SpeechResult>)
      requires WellFormedEvent(results)
      modifies this`text
      ensures var t := LatestTranscript(results);
        text == if Latest(results).isFinal && t != [] then AppendWithSpace(old(text), t) else old(text)
    {
      var current := results[|results| - 1];
      if current.isFinal {
        var transcript := Trim(current.alternatives[0].transcript);
        if transcript != [] {
          if isMobile {
            if text != [] {
              text := text + " " + transcript;
            } else {
              text := transcript;
            }
          } else {
            if text != [] {
              text := text + " " + transcript;
            } else {
              text := transcript;
            }
          }
        }
      }
    }

    /** `recognition.onend`: restart after a delay only on mobile while the flag of
        the recognizer `recognition` now holds is set. */
    method OnEnd() returns (action: EndAction)
      ensures action == if isMobile && Listening() then ScheduleRestart else ReportStopped
    {
      if isMobile && recognition != null && recognition.isListening {
        action := ScheduleRestart;
      } else {
        action := ReportStopped;
      }
    }

    /** The restart timer fires and calls `start()`; a start that throws clears
        the flag and reports the recording stopped. */
    method RestartFired(startThrows: bool) returns (stopped: bool)
      requires recognition != null
      modifies recognition
      ensures recognition.isListening == (old(recognition.isListening) && !startThrows)
      ensures stopped == startThrows
    {
      stopped := startThrows;
      if startThrows {
        recognition.isListening := false;
      }
    }
  }

  /** A click while the flag of `recognition` is set does not stop anything: a
      second recognizer is started and the first keeps its flag. The button's
      processing guard lets a click through only after the button was reset, which
      happens on an error and in the desktop branch of the end handler; the flag
      is then stale, left over from a session that has already ended. */
  method ClickWhileListening(p: Page, window: set<string>) returns (request: EngineRequest)
    requires p.Listening() && IsSupportedAsWritten(window) && IsSupported(window)
    modifies p
    ensures request == StartRequested && p.Listening()
    ensures p.recognition != old(p.recognition) && old(p.recognition).isListening
  {
    request := p.Click(window);
  }

  /** A session started by a click ends with a restart on mobile and with the
      recording reported stopped on desktop, where the end handler ignores the flag. */
  method StartThenEnd(p: Page, window: set<string>) returns (action: EndAction)
    requires IsSupportedAsWritten(window) && IsSupported(window)
    modifies p
    ensures action == if p.isMobile then ScheduleRestart else ReportStopped
  {
    var request := p.Click(window);
    p.OnStart();
    action := p.OnEnd();
  }

  /** In a browser that exposes only the standard constructor, a click leaves the
      page as it was and starts nothing. */
  method StandardOnlyClick(p: Page) returns (request: EngineRequest)
    modifies p
    ensures request == NoRequest && p.recognition == old(p.recognition) && p.text == old(p.text)
  {
    StandardOnlyBrowserRejected();
    request := p.Click({StandardName});
  }
}
