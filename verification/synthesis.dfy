/** `PodcastScriptProcessor.generate_audio`: the walk over the speaker order
    with a per-speaker cursor, the skip rules, the clip filename, and the
    best-effort call to the text-to-speech provider.  The provider is an oracle
    saying whether a request succeeded; the log lines become a per-line report. */
module Synthesis {
  import opened Chars
  import opened ScriptModel

  // ---------------------------------------------------------------------------
  // `_sanitize_filename`

  /** The characters of `[\w\-_.]`, which `_sanitize_filename` keeps. */
  predicate Allowed(u: Unicode, c: char) {
    u.isWordChar(c) || c == '-' || c == '_' || c == '.'
  }

  /** `_sanitize_filename`: every character outside `[\w\-_.]` becomes `_`. */
  function Sanitize(u: Unicode, name: string): string {
    if |name| == 0 then []
    else [if Allowed(u, name[0]) then name[0] else '_'] + Sanitize(u, name[1..])
  }

  /** Sanitizing keeps the length, keeps allowed characters in place, turns
      every other one into `_`, and so leaves only allowed characters. */
  lemma {:induction false} SanitizeSpec(u: Unicode, name: string)
    ensures var r := Sanitize(u, name);
      && |r| == |name|
      && (forall i :: 0 <= i < |name| && Allowed(u, name[i]) ==> r[i] == name[i])
      && (forall i :: 0 <= i < |name| && !Allowed(u, name[i]) ==> r[i] == '_')
      && (forall i :: 0 <= i < |r| ==> Allowed(u, r[i]))
  {
    if |name| > 0 {
      SanitizeSpec(u, name[1..]);
    }
  }

  /** Sanitizing twice is sanitizing once. */
  lemma SanitizeIdempotent(u: Unicode, name: string)
    ensures Sanitize(u, Sanitize(u, name)) == Sanitize(u, name)
  {
    SanitizeSpec(u, name);
    SanitizeFixedPoints(u, Sanitize(u, name));
  }

  /** A name is left unchanged exactly when every character is allowed. */
  lemma SanitizeFixedPoints(u: Unicode, name: string)
    ensures Sanitize(u, name) == name <==> forall i :: 0 <= i < |name| ==> Allowed(u, name[i])
  {
    SanitizeSpec(u, name);
    if Sanitize(u, name) == name {
      assert forall i :: 0 <= i < |name| ==> Allowed(u, Sanitize(u, name)[i]);
    }
  }

  /** The clip name: the line number, `_`, the lowered speaker and `.wav`, sanitized. */
  function ClipName(u: Unicode, line: nat, speaker: string): string {
    Sanitize(u, Show(line) + "_" + u.lower(speaker) + ".wav")
  }

  // ---------------------------------------------------------------------------
  // The driver loop

  /** What one call of the provider is asked for: the file to write, the voice and the text. */
  datatype Request = Request(filename: string, voice: string, text: string)

  /** What happened to one entry of the speaker order. */
  datatype Outcome =
    | Requested(request: Request, succeeded: bool)  // provider called; a failure is only logged
    | NoVoice                                       // the speaker has no voice: skipped
    | OutOfBounds                                   // the speaker's lines are used up: skipped
    | KeyError                                      // advancing a cursor the tracker lacks: the loop ends

  datatype Event = Event(line: nat, speaker: string, outcome: Outcome)

  /** The voice map, Python's Unicode tables, and the provider oracle. */
  datatype Config = Config(voices: map<string, string>, u: Unicode, provider: Request -> bool)

  /** The loop state: the per-speaker cursors, the report so far, and whether an exception ended the loop. */
  datatype Progress = Progress(cursor: map<string, nat>, events: seq<Event>, halted: bool)

  /** The speaker's voice, with a missing entry read as the falsy `""`. */
  function VoiceOf(voices: map<string, string>, speaker: string): string {
    if speaker in voices then voices[speaker] else ""
  }

  /** The speaker's lines; a speaker without an entry has none. */
  function LinesOf(sc: Script, speaker: string): seq<string> {
    if speaker in sc.linesPerSpeaker then sc.linesPerSpeaker[speaker] else []
  }

  /** The speaker's cursor; a speaker the tracker lacks reads as 0. */
  function CursorOf(cursor: map<string, nat>, speaker: string): nat {
    if speaker in cursor then cursor[speaker] else 0
  }

  /** One iteration of the loop for `line` (1-based) and its speaker. */
  function Step(sc: Script, cfg: Config, p: Progress, line: nat, speaker: string): Progress
  {
    if p.halted then p
    else
      var voice := VoiceOf(cfg.voices, speaker);
      if voice == "" then
        p.(events := p.events + [Event(line, speaker, NoVoice)])
      else
        var lines := LinesOf(sc, speaker);
        var index := CursorOf(p.cursor, speaker);
        if index >= |lines| then
          p.(events := p.events + [Event(line, speaker, OutOfBounds)])
        else if speaker !in p.cursor then
          Progress(p.cursor, p.events + [Event(line, speaker, KeyError)], true)
        else
          var request := Request(ClipName(cfg.u, line, speaker), voice, lines[index]);
          var outcome := Requested(request, cfg.provider(request));
          Progress(p.cursor[speaker := index + 1], p.events + [Event(line, speaker, outcome)], false)
  }

  /** One iteration appends exactly one event for the entry.  A missing or empty
      voice skips it, and so does a voiced speaker whose lines are used up.  A
      voiced speaker with a line left is requested when the tracker holds its
      cursor and raises a KeyError otherwise.  Only a request moves the cursor,
      by one; the request carries the sanitized filename, the voice and the
      cursor's line.  A provider failure does not stop the loop; only a KeyError
      halts it. */
  lemma StepSpec(sc: Script, cfg: Config, p: Progress, line: nat, speaker: string)
    ensures var r := Step(sc, cfg, p, line, speaker);
      && (p.halted ==> r == p)
      && (!p.halted ==> |r.events| == |p.events| + 1 && r.events[..|p.events|] == p.events)
      && (!p.halted ==> r.events[|p.events|].line == line && r.events[|p.events|].speaker == speaker)
      && (!p.halted ==> (r.events[|p.events|].outcome.NoVoice? <==> VoiceOf(cfg.voices, speaker) == ""))
      && (!p.halted && !r.events[|p.events|].outcome.Requested? ==> r.cursor == p.cursor)
      && (!p.halted && r.events[|p.events|].outcome.Requested? ==>
            && speaker in p.cursor
            && r.cursor == p.cursor[speaker := p.cursor[speaker] + 1]
            && p.cursor[speaker] < |LinesOf(sc, speaker)|
            && r.events[|p.events|].outcome.request ==
                 Request(ClipName(cfg.u, line, speaker), VoiceOf(cfg.voices, speaker), LinesOf(sc, speaker)[p.cursor[speaker]])
            && r.events[|p.events|].outcome.succeeded == cfg.provider(r.events[|p.events|].outcome.request))
      && (r.halted <==> p.halted || r.events[|r.events| - 1].outcome.KeyError?)
      && (!p.halted && VoiceOf(cfg.voices, speaker) != "" ==>
            (r.events[|p.events|].outcome.OutOfBounds? <==> CursorOf(p.cursor, speaker) >= |LinesOf(sc, speaker)|))
      && (!p.halted ==>
            (r.events[|p.events|].outcome.Requested? <==>
               && VoiceOf(cfg.voices, speaker) != ""
               && CursorOf(p.cursor, speaker) < |LinesOf(sc, speaker)|
               && speaker in p.cursor))
      && (!p.halted ==>
            (r.events[|p.events|].outcome.KeyError? <==>
               && VoiceOf(cfg.voices, speaker) != ""
               && CursorOf(p.cursor, speaker) < |LinesOf(sc, speaker)|
               && speaker !in p.cursor))
  {
  }

  /** The shape of one iteration: one event for the entry when running, a
      NoVoice event exactly for a speaker without a voice, and a halt exactly on
      a KeyError. */
  lemma StepShape(sc: Script, cfg: Config, p: Progress, line: nat, speaker: string)
    ensures var r := Step(sc, cfg, p, line, speaker);
      && (p.halted ==> r == p)
      && (!p.halted ==> |r.events| == |p.events| + 1 && r.events[..|p.events|] == p.events)
      && (!p.halted ==> r.events[|p.events|].line == line && r.events[|p.events|].speaker == speaker)
      && (!p.halted ==> (r.events[|p.events|].outcome.NoVoice? <==> VoiceOf(cfg.voices, speaker) == ""))
      && (r.halted <==> p.halted || r.events[|r.events| - 1].outcome.KeyError?)
  {
  }

  /** Every speaker name starts with its cursor at 0. */
  function InitialCursor(names: seq<string>): map<string, nat> {
    map s | s in names :: 0
  }

  /** The loop state after the first `k` entries of the speaker order. */
  function Run(sc: Script, cfg: Config, k: nat): Progress
    requires k <= |sc.order|
  {
    if k == 0 then Progress(InitialCursor(sc.names), [], false)
    else Step(sc, cfg, Run(sc, cfg, k - 1), k, sc.order[k - 1])
  }

  /** The whole loop: every entry of the speaker order, one event each, unless a
      KeyError ends it early on its last event. */
  function GenerateAudio(sc: Script, cfg: Config): (r: Progress)
    ensures |r.events| <= |sc.order|
    ensures !r.halted ==> |r.events| == |sc.order|
    ensures r.halted ==> |r.events| > 0 && r.events[|r.events| - 1].outcome.KeyError?
  {
    RunReport(sc, cfg, |sc.order|);
    Run(sc, cfg, |sc.order|)
  }

  // ---------------------------------------------------------------------------
  // Properties of the loop

  /** Requests made so far for `speaker`. */
  function RequestsFor(events: seq<Event>, speaker: string): nat {
    if |events| == 0 then 0
    else
      var e := events[|events| - 1];
      RequestsFor(events[..|events| - 1], speaker) + (if e.speaker == speaker && e.outcome.Requested? then 1 else 0)
  }

  /** The report has one event per processed entry, numbered from 1 in order;
      only a KeyError stops the loop early, and it is then the last event. */
  lemma {:induction false} RunReport(sc: Script, cfg: Config, k: nat)
    requires k <= |sc.order|
    ensures var p := Run(sc, cfg, k);
      && |p.events| <= k
      && (!p.halted ==> |p.events| == k)
      && (p.halted <==> |p.events| > 0 && p.events[|p.events| - 1].outcome.KeyError?)
      && (forall i :: 0 <= i < |p.events| ==> p.events[i].line == i + 1 && p.events[i].speaker == sc.order[i])
      && (forall i :: 0 <= i < |p.events| ==>
            (p.events[i].outcome.NoVoice? <==> VoiceOf(cfg.voices, sc.order[i]) == ""))
  {
    RunNumbered(sc, cfg, k);
    RunHalts(sc, cfg, k);
    RunSkipsVoiceless(sc, cfg, k);
  }

  /** The events are numbered from 1 along the order and carry its speakers. */
  predicate NumberedAlong(order: seq<string>, es: seq<Event>) {
    forall i :: 0 <= i < |es| ==> i < |order| && es[i].line == i + 1 && es[i].speaker == order[i]
  }

  /** An event is a NoVoice skip exactly when its speaker has no voice. */
  predicate SkippedForVoice(voices: map<string, string>, es: seq<Event>) {
    forall i :: 0 <= i < |es| ==> (es[i].outcome.NoVoice? <==> VoiceOf(voices, es[i].speaker) == "")
  }

  /** RunReport's counting and numbering. */
  lemma {:induction false} RunNumbered(sc: Script, cfg: Config, k: nat)
    requires k <= |sc.order|
    ensures var p := Run(sc, cfg, k);
      && |p.events| <= k
      && (!p.halted ==> |p.events| == k)
      && NumberedAlong(sc.order, p.events)
  {
    if k > 0 {
      RunNumbered(sc, cfg, k - 1);
      StepNumbered(sc, cfg, Run(sc, cfg, k - 1), k);
    }
  }

  /** The inductive step of RunNumbered. */
  lemma StepNumbered(sc: Script, cfg: Config, p: Progress, k: nat)
    requires 0 < k <= |sc.order|
    requires |p.events| <= k - 1 && (!p.halted ==> |p.events| == k - 1)
    requires NumberedAlong(sc.order, p.events)
    ensures var r := Step(sc, cfg, p, k, sc.order[k - 1]);
      && |r.events| <= k
      && (!r.halted ==> |r.events| == k)
      && NumberedAlong(sc.order, r.events)
  {
    StepShape(sc, cfg, p, k, sc.order[k - 1]);
    var es := Step(sc, cfg, p, k, sc.order[k - 1]).events;
    if !p.halted {
      forall i | 0 <= i < |es| ensures i < |sc.order| && es[i].line == i + 1 && es[i].speaker == sc.order[i] {
        if i < |p.events| {
          assert es[i] == es[..|p.events|][i];
        }
      }
    }
  }

  /** RunReport's halting: only a final KeyError stops the loop. */
  lemma {:induction false} RunHalts(sc: Script, cfg: Config, k: nat)
    requires k <= |sc.order|
    ensures var p := Run(sc, cfg, k);
      p.halted <==> |p.events| > 0 && p.events[|p.events| - 1].outcome.KeyError?
  {
    if k > 0 {
      RunHalts(sc, cfg, k - 1);
      StepShape(sc, cfg, Run(sc, cfg, k - 1), k, sc.order[k - 1]);
    }
  }

  /** RunReport's voice check: NoVoice exactly for a speaker without a voice. */
  lemma {:induction false} RunSkipsVoiceless(sc: Script, cfg: Config, k: nat)
    requires k <= |sc.order|
    ensures SkippedForVoice(cfg.voices, Run(sc, cfg, k).events)
  {
    if k > 0 {
      RunSkipsVoiceless(sc, cfg, k - 1);
      var p := Run(sc, cfg, k - 1);
      StepShape(sc, cfg, p, k, sc.order[k - 1]);
      var es := Run(sc, cfg, k).events;
      if !p.halted {
        forall i | 0 <= i < |es| ensures es[i].outcome.NoVoice? <==> VoiceOf(cfg.voices, es[i].speaker) == "" {
          if i < |p.events| {
            assert es[i] == es[..|p.events|][i];
          }
        }
      }
    }
  }

  /** Each cursor counts exactly the requests made for its speaker, never exceeds
      that speaker's number of lines, and the cursor keys stay the speaker names. */
  lemma {:induction false} RunCursor(sc: Script, cfg: Config, k: nat)
    requires k <= |sc.order|
    ensures var p := Run(sc, cfg, k);
      && (forall s :: s in p.cursor <==> s in sc.names)
      && (forall s :: CursorOf(p.cursor, s) == RequestsFor(p.events, s))
      && (forall s :: CursorOf(p.cursor, s) <= |LinesOf(sc, s)|)
  {
    if k > 0 {
      RunCursor(sc, cfg, k - 1);
      StepCursor(sc, cfg, Run(sc, cfg, k - 1), k, sc.order[k - 1]);
    }
  }

  /** The cursor keys stay the speaker names. */
  lemma RunCursorKeys(sc: Script, cfg: Config, k: nat)
    requires k <= |sc.order|
    ensures forall s :: s in Run(sc, cfg, k).cursor <==> s in sc.names
  {
    RunCursor(sc, cfg, k);
  }

  ghost predicate CursorsTrack(sc: Script, p: Progress) {
    && (forall s :: s in p.cursor <==> s in sc.names)
    && (forall s :: CursorOf(p.cursor, s) == RequestsFor(p.events, s))
    && (forall s :: CursorOf(p.cursor, s) <= |LinesOf(sc, s)|)
  }

  /** The inductive step of RunCursor. */
  lemma StepCursor(sc: Script, cfg: Config, p: Progress, line: nat, speaker: string)
    requires CursorsTrack(sc, p)
    ensures CursorsTrack(sc, Step(sc, cfg, p, line, speaker))
  {
    var r := Step(sc, cfg, p, line, speaker);
    if !p.halted {
      StepSpec(sc, cfg, p, line, speaker);
      assert r.events[..|r.events| - 1] == p.events;
      forall s ensures CursorOf(r.cursor, s) == RequestsFor(r.events, s) {
        assert RequestsFor(r.events, s) == RequestsFor(p.events, s) +
          (if speaker == s && r.events[|p.events|].outcome.Requested? then 1 else 0);
      }
    }
  }

  /** Every request in the report names its clip after the event's own line number and speaker. */
  predicate NamedAfterEntries(u: Unicode, es: seq<Event>) {
    forall i :: 0 <= i < |es| && es[i].outcome.Requested? ==>
      es[i].outcome.request.filename == ClipName(u, es[i].line, es[i].speaker)
  }

  lemma {:induction false} RunFilenames(sc: Script, cfg: Config, k: nat)
    requires k <= |sc.order|
    ensures NamedAfterEntries(cfg.u, Run(sc, cfg, k).events)
  {
    if k > 0 {
      RunFilenames(sc, cfg, k - 1);
      var p := Run(sc, cfg, k - 1);
      StepSpec(sc, cfg, p, k, sc.order[k - 1]);
      var es := Run(sc, cfg, k).events;
      if !p.halted {
        forall i | 0 <= i < |es| && es[i].outcome.Requested?
          ensures es[i].outcome.request.filename == ClipName(cfg.u, es[i].line, es[i].speaker)
        {
          if i < |p.events| {
            assert es[i] == es[..|p.events|][i];
          }
        }
      }
    }
  }

  /** The report of a longer run extends that of a shorter one. */
  lemma {:induction false} RunExtends(sc: Script, cfg: Config, j: nat, k: nat)
    requires j <= k <= |sc.order|
    ensures |Run(sc, cfg, j).events| <= |Run(sc, cfg, k).events|
    ensures Run(sc, cfg, k).events[..|Run(sc, cfg, j).events|] == Run(sc, cfg, j).events
  {
    if j < k {
      RunExtends(sc, cfg, j, k - 1);
    }
  }

  /** On a consistent script the bounds check never fires and no KeyError is
      raised: the loop runs to the end, and a voiced speaker's cursor is the number
      of times it occurred so far. */
  lemma RunConsistent(sc: Script, cfg: Config, k: nat)
    requires Consistent(sc)
    requires k <= |sc.order|
    ensures var p := Run(sc, cfg, k);
      && !p.halted
      && (forall i :: 0 <= i < |p.events| ==> !p.events[i].outcome.OutOfBounds? && !p.events[i].outcome.KeyError?)
      && (forall s :: VoiceOf(cfg.voices, s) != "" ==> CursorOf(p.cursor, s) == multiset(sc.order[..k])[s])
  {
    RunStaysConsistent(sc, cfg, k);
  }

  /** No event so far was a bounds skip or a KeyError. */
  predicate NeitherBoundsNorKeyError(es: seq<Event>) {
    forall i :: 0 <= i < |es| ==> !es[i].outcome.OutOfBounds? && !es[i].outcome.KeyError?
  }

  /** RunConsistent's invariant after the first `k` entries. */
  ghost predicate ConsistentSoFar(sc: Script, cfg: Config, k: nat, p: Progress)
    requires k <= |sc.order|
  {
    && !p.halted
    && NeitherBoundsNorKeyError(p.events)
    && (forall s :: VoiceOf(cfg.voices, s) != "" ==> CursorOf(p.cursor, s) == multiset(sc.order[..k])[s])
  }

  /** The induction behind RunConsistent. */
  lemma {:induction false} RunStaysConsistent(sc: Script, cfg: Config, k: nat)
    requires Consistent(sc)
    requires k <= |sc.order|
    ensures ConsistentSoFar(sc, cfg, k, Run(sc, cfg, k))
  {
    if k > 0 {
      RunStaysConsistent(sc, cfg, k - 1);
      RunCursorKeys(sc, cfg, k - 1);
      StepKeepsConsistent(sc, cfg, Run(sc, cfg, k - 1), k);
    } else {
      forall s ensures CursorOf(InitialCursor(sc.names), s) == 0 {
      }
    }
  }

  /** The inductive step of RunStaysConsistent. */
  lemma StepKeepsConsistent(sc: Script, cfg: Config, p: Progress, k: nat)
    requires Consistent(sc)
    requires 0 < k <= |sc.order|
    requires ConsistentSoFar(sc, cfg, k - 1, p)
    requires forall s :: s in p.cursor <==> s in sc.names
    ensures ConsistentSoFar(sc, cfg, k, Step(sc, cfg, p, k, sc.order[k - 1]))
  {
    StepConsistent(sc, cfg, p, k);
    StepShape(sc, cfg, p, k, sc.order[k - 1]);
    var es := Step(sc, cfg, p, k, sc.order[k - 1]).events;
    forall i | 0 <= i < |es| ensures !es[i].outcome.OutOfBounds? && !es[i].outcome.KeyError? {
      if i < |p.events| {
        assert es[i] == es[..|p.events|][i];
      }
    }
  }

  /** When none of the speakers in the order has a line, nothing is requested:
      every entry is skipped, for want of a voice or by the bounds check. */
  lemma {:induction false} RunWithoutLines(sc: Script, cfg: Config, k: nat)
    requires k <= |sc.order|
    requires forall i :: 0 <= i < |sc.order| ==> LinesOf(sc, sc.order[i]) == []
    ensures var p := Run(sc, cfg, k);
      && !p.halted
      && |p.events| == k
      && (forall i :: 0 <= i < k ==>
            p.events[i].outcome == (if VoiceOf(cfg.voices, sc.order[i]) == "" then NoVoice else OutOfBounds))
  {
    if k > 0 {
      RunWithoutLines(sc, cfg, k - 1);
      var p := Run(sc, cfg, k - 1);
      StepWithoutLines(sc, cfg, p, k, sc.order[k - 1]);
    }
  }

  lemma StepWithoutLines(sc: Script, cfg: Config, p: Progress, line: nat, speaker: string)
    requires !p.halted && LinesOf(sc, speaker) == []
    ensures Step(sc, cfg, p, line, speaker) ==
      p.(events := p.events + [Event(line, speaker, if VoiceOf(cfg.voices, speaker) == "" then NoVoice else OutOfBounds)])
  {
  }

  /** A voiced speaker with a line left is requested, and its cursor advances. */
  lemma StepRequests(sc: Script, cfg: Config, p: Progress, line: nat, speaker: string)
    requires !p.halted && VoiceOf(cfg.voices, speaker) != ""
    requires speaker in p.cursor && p.cursor[speaker] < |LinesOf(sc, speaker)|
    ensures var request := Request(ClipName(cfg.u, line, speaker), VoiceOf(cfg.voices, speaker), LinesOf(sc, speaker)[p.cursor[speaker]]);
      Step(sc, cfg, p, line, speaker) ==
        Progress(p.cursor[speaker := p.cursor[speaker] + 1],
                 p.events + [Event(line, speaker, Requested(request, cfg.provider(request)))], false)
  {
  }

  /** A speaker without a voice is skipped and nothing else changes. */
  lemma StepWithoutVoice(sc: Script, cfg: Config, p: Progress, line: nat, speaker: string)
    requires !p.halted && VoiceOf(cfg.voices, speaker) == ""
    ensures Step(sc, cfg, p, line, speaker) == p.(events := p.events + [Event(line, speaker, NoVoice)])
  {
  }

  /** Counting occurrences in a growing prefix of a list. */
  lemma PrefixCounts<T>(xs: seq<T>, k: nat)
    requires 0 < k <= |xs|
    ensures multiset(xs[..k]) == multiset(xs[..k - 1]) + multiset{xs[k - 1]}
    ensures forall x :: multiset(xs[..k])[x] <= multiset(xs)[x]
  {
    assert xs[..k] == xs[..k - 1] + [xs[k - 1]];
    assert xs == xs[..k] + xs[k..];
  }

  /** The inductive step of RunConsistent. */
  lemma StepConsistent(sc: Script, cfg: Config, p: Progress, k: nat)
    requires Consistent(sc)
    requires 0 < k <= |sc.order|
    requires !p.halted
    requires forall s :: s in p.cursor <==> s in sc.names
    requires forall s :: VoiceOf(cfg.voices, s) != "" ==> CursorOf(p.cursor, s) == multiset(sc.order[..k - 1])[s]
    ensures var r := Step(sc, cfg, p, k, sc.order[k - 1]);
      && !r.halted
      && !r.events[|p.events|].outcome.OutOfBounds?
      && !r.events[|p.events|].outcome.KeyError?
      && (forall s :: VoiceOf(cfg.voices, s) != "" ==> CursorOf(r.cursor, s) == multiset(sc.order[..k])[s])
  {
    var s := sc.order[k - 1];
    var r := Step(sc, cfg, p, k, s);
    PrefixCounts(sc.order, k);
    if VoiceOf(cfg.voices, s) != "" {
      assert s in sc.names && s in sc.linesPerSpeaker && s in p.cursor;
      assert CursorOf(p.cursor, s) < |LinesOf(sc, s)|;
      StepRequests(sc, cfg, p, k, s);
    } else {
      StepWithoutVoice(sc, cfg, p, k, s);
    }
    forall s' | VoiceOf(cfg.voices, s') != "" ensures CursorOf(r.cursor, s') == multiset(sc.order[..k])[s'] {
      if s' != s {
        assert CursorOf(r.cursor, s') == CursorOf(p.cursor, s');
      }
    }
  }

  /** On a consistent script, the request for the i-th entry carries the text of
      its speaker's k-th line, k being the speaker's earlier occurrences, and the
      filename built from the 1-based line number and the lowered speaker. */
  lemma RequestContents(sc: Script, cfg: Config, i: nat)
    requires Consistent(sc)
    requires i < |sc.order|
    ensures |GenerateAudio(sc, cfg).events| == |sc.order|
    ensures var e := GenerateAudio(sc, cfg).events[i];
      var s := sc.order[i];
      e.outcome.Requested? <==> VoiceOf(cfg.voices, s) != ""
    ensures var e := GenerateAudio(sc, cfg).events[i];
      var s := sc.order[i];
      e.outcome.Requested? ==>
        && s in sc.linesPerSpeaker
        && multiset(sc.order[..i])[s] < |sc.linesPerSpeaker[s]|
        && e.outcome.request.text == sc.linesPerSpeaker[s][multiset(sc.order[..i])[s]]
        && e.outcome.request.filename == ClipName(cfg.u, i + 1, s)
        && e.outcome.request.voice == VoiceOf(cfg.voices, s)
        && e.outcome.succeeded == cfg.provider(e.outcome.request)
  {
    GeneratedEvent(sc, cfg, i);
    EventContents(sc, cfg, i);
  }

  /** The i-th event of the full report is the one the (i+1)-th step appended. */
  lemma GeneratedEvent(sc: Script, cfg: Config, i: nat)
    requires Consistent(sc)
    requires i < |sc.order|
    ensures |GenerateAudio(sc, cfg).events| == |sc.order|
    ensures |Run(sc, cfg, i + 1).events| == i + 1
    ensures GenerateAudio(sc, cfg).events[i] == Run(sc, cfg, i + 1).events[i]
  {
    var n := |sc.order|;
    RunLength(sc, cfg, n);
    RunLength(sc, cfg, i + 1);
    RunExtends(sc, cfg, i + 1, n);
    var all := Run(sc, cfg, n).events;
    assert all[..i + 1][i] == all[i];
  }

  /** On a consistent script every entry produces an event. */
  lemma RunLength(sc: Script, cfg: Config, k: nat)
    requires Consistent(sc)
    requires k <= |sc.order|
    ensures |Run(sc, cfg, k).events| == k
  {
    RunConsistent(sc, cfg, k);
    RunReport(sc, cfg, k);
  }

  /** RequestContents for the event the (i+1)-th step appends. */
  lemma EventContents(sc: Script, cfg: Config, i: nat)
    requires Consistent(sc)
    requires i < |sc.order|
    ensures |Run(sc, cfg, i + 1).events| == i + 1
    ensures var e := Run(sc, cfg, i + 1).events[i];
      var s := sc.order[i];
      && (e.outcome.Requested? <==> VoiceOf(cfg.voices, s) != "")
      && (e.outcome.Requested? ==>
        && s in sc.linesPerSpeaker
        && multiset(sc.order[..i])[s] < |sc.linesPerSpeaker[s]|
        && e.outcome.request.text == sc.linesPerSpeaker[s][multiset(sc.order[..i])[s]]
        && e.outcome.request.filename == ClipName(cfg.u, i + 1, s)
        && e.outcome.request.voice == VoiceOf(cfg.voices, s)
        && e.outcome.succeeded == cfg.provider(e.outcome.request))
  {
    var p := Run(sc, cfg, i);
    var s := sc.order[i];
    RunLength(sc, cfg, i);
    RunConsistent(sc, cfg, i);
    RunConsistent(sc, cfg, i + 1);
    StepSpec(sc, cfg, p, i + 1, s);
  }

  /** The report with every provider outcome forgotten. */
  function Attempts(events: seq<Event>): seq<Event> {
    seq(|events|, i requires 0 <= i < |events| =>
      var e := events[i];
      if e.outcome.Requested? then e.(outcome := Requested(e.outcome.request, true)) else e)
  }

  /** Provider failures change nothing but the success flags: every later line
      is still attempted and the cursors advance exactly as on success. */
  lemma {:induction false} ProviderOutcomeIrrelevant(sc: Script, cfg: Config, provider: Request -> bool, k: nat)
    requires k <= |sc.order|
    ensures var p := Run(sc, cfg, k);
      var q := Run(sc, cfg.(provider := provider), k);
      && p.cursor == q.cursor
      && p.halted == q.halted
      && Attempts(p.events) == Attempts(q.events)
  {
    if k > 0 {
      ProviderOutcomeIrrelevant(sc, cfg, provider, k - 1);
      StepIgnoresProvider(sc, cfg, provider, Run(sc, cfg, k - 1), Run(sc, cfg.(provider := provider), k - 1), k);
    }
  }

  lemma StepIgnoresProvider(sc: Script, cfg: Config, provider: Request -> bool, p: Progress, q: Progress, k: nat)
    requires 0 < k <= |sc.order|
    requires p.cursor == q.cursor && p.halted == q.halted && Attempts(p.events) == Attempts(q.events)
    ensures var p' := Step(sc, cfg, p, k, sc.order[k - 1]);
      var q' := Step(sc, cfg.(provider := provider), q, k, sc.order[k - 1]);
      && p'.cursor == q'.cursor
      && p'.halted == q'.halted
      && Attempts(p'.events) == Attempts(q'.events)
  {
    var p' := Step(sc, cfg, p, k, sc.order[k - 1]);
    var q' := Step(sc, cfg.(provider := provider), q, k, sc.order[k - 1]);
    if !p.halted {
      assert |p.events| == |Attempts(p.events)| == |q.events|;
      AttemptsAppend(p.events, p'.events[|p.events|]);
      AttemptsAppend(q.events, q'.events[|q.events|]);
      assert p'.events == p.events + [p'.events[|p.events|]];
      assert q'.events == q.events + [q'.events[|q.events|]];
    }
  }

  lemma AttemptsAppend(events: seq<Event>, e: Event)
    ensures Attempts(events + [e]) == Attempts(events) + Attempts([e])
  {
  }
}
