/** The one contract between the two scripts: the synthesis driver names each
    clip `{n}_{speaker.lower()}.wav` (sanitized), and the assembler recovers
    `(n, speaker)` from the name with `(\d+)_([a-zA-Z]+)\.wav`. */
module Pipeline {
  import opened Options
  import opened Chars
  import ScriptModel
  import Synthesis
  import Assembly
  import Order
  import Dicts

  /** Sanitizing works character by character, so it splits over concatenation. */
  lemma SanitizeAppend(u: Unicode, a: string, b: string)
    ensures Synthesis.Sanitize(u, a + b) == Synthesis.Sanitize(u, a) + Synthesis.Sanitize(u, b)
  {
    var l, r := Synthesis.Sanitize(u, a + b), Synthesis.Sanitize(u, a) + Synthesis.Sanitize(u, b);
    Synthesis.SanitizeSpec(u, a + b);
    Synthesis.SanitizeSpec(u, a);
    Synthesis.SanitizeSpec(u, b);
    forall i | 0 <= i < |l| ensures l[i] == r[i] {
      if i < |a| {
        assert (a + b)[i] == a[i];
      } else {
        assert (a + b)[i] == b[i - |a|];
      }
    }
  }

  /** Under any Python, the digits of `str(n)` and the letters of an ASCII name
      are all kept by `_sanitize_filename`, and so are `_` and `.wav`. */
  lemma ClipNameParts(u: Unicode, n: nat, lowered: string)
    requires AgreesOnAscii(u)
    ensures Synthesis.Sanitize(u, Show(n) + "_" + lowered + ".wav")
         == Show(n) + "_" + Synthesis.Sanitize(u, lowered) + ".wav"
  {
    var s := Show(n);
    SanitizeAppend(u, s + "_" + lowered, ".wav");
    SanitizeAppend(u, s + "_", lowered);
    SanitizeAppend(u, s, "_");
    assert forall i :: 0 <= i < |s| ==> IsAscii(s[i]) && Synthesis.Allowed(u, s[i]);
    Synthesis.SanitizeFixedPoints(u, s);
    assert IsAscii('w') && IsAscii('a') && IsAscii('v');
    Synthesis.SanitizeFixedPoints(u, ".wav");
    Synthesis.SanitizeFixedPoints(u, "_");
  }

  /** The round trip between the two scripts: for a non-empty ASCII-letter
      speaker, the clip written for line `n` is named `{n}_{lower}.wav`, and
      the assembler accepts that name and files it under `(n, lower)`. */
  lemma FilenameRoundTrip(u: Unicode, n: nat, speaker: string)
    requires AgreesOnAscii(u)
    requires |speaker| > 0 && AllAsciiLetters(speaker)
    ensures Synthesis.ClipName(u, n, speaker) == Show(n) + "_" + AsciiLower(speaker) + ".wav"
    ensures Assembly.MatchClip(u, Synthesis.ClipName(u, n, speaker))
         == Some(Assembly.ClipKey(n, AsciiLower(speaker)))
  {
    var lowered := AsciiLower(speaker);
    assert AllAscii(speaker);
    assert u.lower(speaker) == lowered;
    AsciiLowerOfLetters(speaker);
    ClipNameParts(u, n, lowered);
    assert forall i :: 0 <= i < |lowered| ==> IsAscii(lowered[i]) && Synthesis.Allowed(u, lowered[i]);
    Synthesis.SanitizeFixedPoints(u, lowered);
    var name := Show(n) + "_" + lowered + ".wav";
    assert forall i :: 0 <= i < |Show(n)| ==> IsAscii(Show(n)[i]) && u.isDecimal(Show(n)[i]);
    assert Assembly.ClipShape(u, name, Show(n), lowered);
    Assembly.MatchClipComplete(u, name, Show(n), lowered);
    ShowParses(u, n);
  }

  /** Whatever the assembler accepts is keyed by a name of lower-case ASCII letters. */
  lemma MatchedSpeakerIsLowerLetters(u: Unicode, name: string)
    requires Assembly.MatchClip(u, name).Some?
    ensures var sp := Assembly.MatchClip(u, name).value.speaker;
      |sp| > 0 && forall i :: 0 <= i < |sp| ==> 'a' <= sp[i] <= 'z'
  {
    var d := Assembly.DecimalRun(u, name);
    var rest := name[d + 1..];
    var l := Assembly.LetterRun(rest);
    AsciiLowerOfLetters(rest[..l]);
  }

  /** Where the assembler's pattern looks in a clip name: `str(n)` is the
      digit run, `_` follows it, and the rest is the sanitized lowered speaker
      and `.wav`. */
  lemma ClipNameSplit(u: Unicode, n: nat, lowered: string)
    requires AgreesOnAscii(u)
    ensures var name := Synthesis.Sanitize(u, Show(n) + "_" + lowered + ".wav");
      var d := |Show(n)|;
      && Assembly.DecimalRun(u, name) == d
      && d < |name| && name[d] == '_'
      && name[d + 1..] == Synthesis.Sanitize(u, lowered) + ".wav"
  {
    ClipNameTail(u, n, lowered);
    DigitRunEndsAtUnderscore(u, Show(n), Synthesis.Sanitize(u, lowered) + ".wav");
  }

  lemma ClipNameTail(u: Unicode, n: nat, lowered: string)
    requires AgreesOnAscii(u)
    ensures Synthesis.Sanitize(u, Show(n) + "_" + lowered + ".wav")
         == Show(n) + "_" + (Synthesis.Sanitize(u, lowered) + ".wav")
  {
    ClipNameParts(u, n, lowered);
    Regroup(Show(n), "_", Synthesis.Sanitize(u, lowered), ".wav");
  }

  lemma Regroup<T>(a: seq<T>, b: seq<T>, c: seq<T>, d: seq<T>)
    ensures a + b + c + d == a + b + (c + d)
  {
  }

  /** The number the assembler reads from the start of a clip name: the value of
      its leading `\d` run. */
  function LeadingNumber(u: Unicode, name: string): nat {
    ParseDecimal(u, name[..Assembly.DecimalRun(u, name)])
  }

  /** The leading `\d` run of the clip name for line `n` is exactly `str(n)`, and
      it reads back as `n`, whatever the speaker. */
  lemma ClipNamePrefix(u: Unicode, n: nat, speaker: string)
    requires AgreesOnAscii(u)
    ensures var name := Synthesis.ClipName(u, n, speaker);
      && Assembly.DecimalRun(u, name) == |Show(n)|
      && name[..|Show(n)|] == Show(n)
      && LeadingNumber(u, name) == n
  {
    var lowered := u.lower(speaker);
    ClipNameSplit(u, n, lowered);
    ClipNameTail(u, n, lowered);
    var name := Synthesis.ClipName(u, n, speaker);
    assert name[..|Show(n)|] == Show(n);
    ShowParses(u, n);
  }

  /** Along the report, the numeric prefixes of the requested filenames are the
      line numbers, so they strictly increase from one request to the next. */
  lemma RequestPrefixesIncrease(sc: ScriptModel.Script, cfg: Synthesis.Config)
    requires AgreesOnAscii(cfg.u)
    ensures var es := Synthesis.GenerateAudio(sc, cfg).events;
      forall i :: 0 <= i < |es| && es[i].outcome.Requested? ==>
        LeadingNumber(cfg.u, es[i].outcome.request.filename) == i + 1
    ensures var es := Synthesis.GenerateAudio(sc, cfg).events;
      forall i, j :: 0 <= i < j < |es| && es[i].outcome.Requested? && es[j].outcome.Requested? ==>
        LeadingNumber(cfg.u, es[i].outcome.request.filename) < LeadingNumber(cfg.u, es[j].outcome.request.filename)
  {
    var n := |sc.order|;
    Synthesis.RunReport(sc, cfg, n);
    Synthesis.RunFilenames(sc, cfg, n);
    var es := Synthesis.GenerateAudio(sc, cfg).events;
    forall i | 0 <= i < |es| && es[i].outcome.Requested?
      ensures LeadingNumber(cfg.u, es[i].outcome.request.filename) == i + 1
    {
      assert es[i].outcome.request.filename == Synthesis.ClipName(cfg.u, es[i].line, es[i].speaker);
      ClipNamePrefix(cfg.u, es[i].line, es[i].speaker);
    }
  }

  /** `\d+` applied to `str(n)` followed by `_` consumes exactly `str(n)`. */
  lemma DigitRunEndsAtUnderscore(u: Unicode, s: string, tail: string)
    requires AgreesOnAscii(u)
    requires forall i :: 0 <= i < |s| ==> IsAsciiDigit(s[i])
    ensures Assembly.DecimalRun(u, s + "_" + tail) == |s|
    ensures (s + "_" + tail)[|s|] == '_'
    ensures (s + "_" + tail)[|s| + 1..] == tail
  {
    var name := s + "_" + tail;
    assert IsAscii('_') && !IsAsciiDigit('_') && !u.isDecimal(name[|s|]);
    assert forall i :: 0 <= i < |s| ==> IsAscii(s[i]) && u.isDecimal(name[i]);
  }

  /** The letter part of such a name fails the pattern when the lowered
      speaker holds a non-letter but no `.`. */
  lemma LetterPartRejected(u: Unicode, lowered: string)
    requires '.' !in lowered
    requires !AllAsciiLetters(lowered)
    ensures var rest := Synthesis.Sanitize(u, lowered) + ".wav";
      var l := Assembly.LetterRun(rest);
      l == 0 || !(".wav" <= rest[l..])
  {
    var clean := Synthesis.Sanitize(u, lowered);
    Synthesis.SanitizeSpec(u, lowered);
    var rest := clean + ".wav";
    var p :| 0 <= p < |lowered| && !IsAsciiLetter(lowered[p]);
    assert !IsAsciiLetter(rest[p]);
    var l := Assembly.LetterRun(rest);
    assert l <= p;
    assert rest[l] == clean[l] && clean[l] != '.';
  }

  /** A lowered speaker name with a character other than an ASCII letter, and
      no `.`, yields a clip name the assembler rejects, so that speaker's lines
      never reach the final track. */
  lemma NonLetterSpeakerRejected(u: Unicode, n: nat, speaker: string)
    requires AgreesOnAscii(u)
    requires '.' !in u.lower(speaker)
    requires !AllAsciiLetters(u.lower(speaker))
    ensures Assembly.MatchClip(u, Synthesis.ClipName(u, n, speaker)) == None
  {
    ClipNameSplit(u, n, u.lower(speaker));
    LetterPartRejected(u, u.lower(speaker));
  }

  /** Lowered names with a `.` escape that rule: a speaker called `Al.wav` gets
      the clip `1_al.wav.wav`, which the assembler accepts and files under
      `(1, "al")`, not under the speaker's lowered name. */
  lemma DottedSpeakerAccepted(u: Unicode)
    requires AgreesOnAscii(u)
    ensures Synthesis.ClipName(u, 1, "Al.wav") == "1_al.wav.wav"
    ensures Assembly.MatchClip(u, "1_al.wav.wav") == Some(Assembly.ClipKey(1, "al"))
  {
    DottedSpeakerClipName(u);
    assert Assembly.ClipShape(u, "1_al.wav.wav", "1", "al") by {
      assert IsAscii('1');
      assert "1" + "_" + "al" + ".wav" == "1_al.wav";
    }
    assert AsciiLower("al") == "al";
    Assembly.MatchClipComplete(u, "1_al.wav.wav", "1", "al");
    OneParses(u);
  }

  lemma DottedSpeakerClipName(u: Unicode)
    requires AgreesOnAscii(u)
    ensures Synthesis.ClipName(u, 1, "Al.wav") == "1_al.wav.wav"
  {
    DottedSpeakerParts(u);
    assert Show(1) == "1";
    DottedSpeakerSpelled();
  }

  lemma DottedSpeakerParts(u: Unicode)
    requires AgreesOnAscii(u)
    ensures Synthesis.ClipName(u, 1, "Al.wav") == Show(1) + "_" + "al.wav" + ".wav"
  {
    DottedSpeakerLowered(u);
    ClipNameParts(u, 1, "al.wav");
    DottedSpeakerKept(u);
  }

  lemma DottedSpeakerSpelled()
    ensures "1" + "_" + "al.wav" + ".wav" == "1_al.wav.wav"
  {
  }

  lemma DottedSpeakerKept(u: Unicode)
    requires AgreesOnAscii(u)
    ensures Synthesis.Sanitize(u, "al.wav") == "al.wav"
  {
    var s := "al.wav";
    assert s[0] == 'a' && s[1] == 'l' && s[2] == '.' && s[3] == 'w' && s[4] == 'a' && s[5] == 'v';
    SanitizeKeepsAsciiWords(u, s);
  }

  lemma DottedSpeakerLowered(u: Unicode)
    requires AgreesOnAscii(u)
    ensures u.lower("Al.wav") == "al.wav"
  {
    assert AllAscii("Al.wav");
    assert AsciiLower("Al.wav") == "al.wav";
  }

  /** ASCII letters, digits, `_`, `.` and `-` pass `_sanitize_filename` unchanged. */
  lemma SanitizeKeepsAsciiWords(u: Unicode, s: string)
    requires AgreesOnAscii(u)
    requires forall i :: 0 <= i < |s| ==> IsAsciiLetter(s[i]) || IsAsciiDigit(s[i]) || s[i] == '.'
    ensures Synthesis.Sanitize(u, s) == s
  {
    assert forall i :: 0 <= i < |s| ==> IsAscii(s[i]) && Synthesis.Allowed(u, s[i]);
    Synthesis.SanitizeFixedPoints(u, s);
  }

  lemma OneParses(u: Unicode)
    requires AgreesOnAscii(u)
    ensures ParseDecimal(u, "1") == 1
    ensures ParseDecimal(u, "01") == 1
  {
    assert "1"[..0] == [] && "01"[..1] == "0" && "0"[..0] == [];
  }

  /** `01_alan.wav` and `1_alan.wav` carry the same key; only the later in
      sorted order (`1_alan.wav`) survives loading. */
  lemma LeadingZerosShareKey<S>(u: Unicode, decode: string -> Option<seq<S>>)
    requires AgreesOnAscii(u)
    requires decode("01_alan.wav").Some? && decode("1_alan.wav").Some?
    ensures Assembly.MatchClip(u, "01_alan.wav") == Assembly.MatchClip(u, "1_alan.wav")
    ensures Assembly.Lookup(Assembly.LoadAudioFiles(u, decode, ["1_alan.wav", "01_alan.wav"]), Assembly.ClipKey(1, "alan"))
         == decode("1_alan.wav")
  {
    AlanKeys(u);
    var sorted := ["01_alan.wav", "1_alan.wav"];
    ListingSorts(u, decode);
    Assembly.LastLoadableWins(u, decode, sorted, Assembly.ClipKey(1, "alan"));
  }

  lemma AlanKeys(u: Unicode)
    requires AgreesOnAscii(u)
    ensures Assembly.MatchClip(u, "01_alan.wav") == Some(Assembly.ClipKey(1, "alan"))
    ensures Assembly.MatchClip(u, "1_alan.wav") == Some(Assembly.ClipKey(1, "alan"))
  {
    assert IsAscii('0') && IsAscii('1');
    assert AllAsciiLetters("alan") && AsciiLower("alan") == "alan";
    OneParses(u);
    assert Assembly.ClipShape(u, "01_alan.wav", "01", "alan") by {
      assert "01" + "_" + "alan" + ".wav" == "01_alan.wav";
    }
    assert Assembly.ClipShape(u, "1_alan.wav", "1", "alan") by {
      assert "1" + "_" + "alan" + ".wav" == "1_alan.wav";
    }
    Assembly.MatchClipComplete(u, "01_alan.wav", "01", "alan");
    Assembly.MatchClipComplete(u, "1_alan.wav", "1", "alan");
  }

  /** `sorted()` puts `01_alan.wav` before `1_alan.wav`. */
  lemma ListingSorts<S>(u: Unicode, decode: string -> Option<seq<S>>)
    ensures Assembly.LoadAudioFiles(u, decode, ["1_alan.wav", "01_alan.wav"])
         == Assembly.LoadAll(u, decode, ["01_alan.wav", "1_alan.wav"])
  {
    var listing := ["1_alan.wav", "01_alan.wav"];
    var sorted := ["01_alan.wav", "1_alan.wav"];
    Order.LessIsStrictTotalOrder();
    assert Order.Less(sorted[0], sorted[1]);
    assert Order.SortedBy(sorted, Order.Less);
    assert multiset(sorted) == multiset(listing);
    Order.SortedUnique(Order.Sort(listing, Order.Less), sorted, Order.Less);
  }

  /** `sorted()` puts `10_a.wav` before `2_b.wav`, but the assembled track plays
      line 2 before line 10: the groups are joined in numeric order. */
  lemma NumericNotLexicographic<S>(u: Unicode, decode: string -> Option<seq<S>>)
    requires AgreesOnAscii(u)
    requires decode("10_a.wav").Some? && decode("2_b.wav").Some?
    ensures Order.Less("10_a.wav", "2_b.wav")
    ensures Assembly.Assemble(u, decode, ["10_a.wav", "2_b.wav"]) == decode("2_b.wav").value + decode("10_a.wav").value
  {
    TenAndTwoSorted(u, decode);
    TenAndTwoGroups(u, decode);
    TwoBeforeTen(decode("10_a.wav").value, decode("2_b.wav").value);
  }

  /** Loading `10_a.wav` and then `2_b.wav` makes group 10 first, group 2 second. */
  lemma TenAndTwoGroups<S>(u: Unicode, decode: string -> Option<seq<S>>)
    requires AgreesOnAscii(u)
    requires decode("10_a.wav").Some? && decode("2_b.wav").Some?
    ensures Assembly.LoadAll(u, decode, ["10_a.wav", "2_b.wav"])
         == [(10, [("a", decode("10_a.wav").value)]), (2, [("b", decode("2_b.wav").value)])]
  {
    TenAndTwoKeys(u);
    LoadTwo(u, decode, "10_a.wav", "2_b.wav", Assembly.ClipKey(10, "a"), Assembly.ClipKey(2, "b"));
  }

  /** Loading two files with different line numbers makes one group each, in listing order. */
  lemma LoadTwo<S>(u: Unicode, decode: string -> Option<seq<S>>, a: string, b: string, ka: Assembly.ClipKey, kb: Assembly.ClipKey)
    requires Assembly.MatchClip(u, a) == Some(ka) && decode(a).Some?
    requires Assembly.MatchClip(u, b) == Some(kb) && decode(b).Some?
    requires ka.index != kb.index
    ensures Assembly.LoadAll(u, decode, [a, b])
         == [(ka.index, [(ka.speaker, decode(a).value)]), (kb.index, [(kb.speaker, decode(b).value)])]
  {
    LoadPair(u, decode, a, b);
    var g1 := Assembly.LoadOneStores(u, decode, [], a);
    var g2 := Assembly.LoadOneStores(u, decode, g1, b);
    PutTwoGroups(ka.index, ka.speaker, decode(a).value, kb.index, kb.speaker, decode(b).value);
  }

  /** The loading loop over two names is two loading steps. */
  lemma LoadPair<S>(u: Unicode, decode: string -> Option<seq<S>>, a: string, b: string)
    ensures Assembly.LoadAll(u, decode, [a, b]) == Assembly.LoadOne(u, decode, Assembly.LoadOne(u, decode, [], a), b)
  {
    Assembly.LoadAllSnoc(u, decode, [], a);
    Assembly.LoadAllSnoc(u, decode, [a], b);
    assert [] + [a] == [a] && [a] + [b] == [a, b];
  }

  /** Writing two clips under different line numbers into no groups. */
  lemma PutTwoGroups<S>(i1: nat, s1: string, x: seq<S>, i2: nat, s2: string, y: seq<S>)
    requires i1 != i2
    ensures Dicts.Put([], i1, Dicts.Put([], s1, x)) == [(i1, [(s1, x)])]
    ensures var g1: Assembly.Groups<S> := [(i1, [(s1, x)])];
      Dicts.Put(g1, i2, Dicts.Put(Dicts.Get(g1, i2).GetOr([]), s2, y)) == [(i1, [(s1, x)]), (i2, [(s2, y)])]
  {
    var g1: Assembly.Groups<S> := [(i1, [(s1, x)])];
    assert Dicts.Get(g1, i2) == None;
  }

  /** Groups 10 and 2, in that insertion order, are joined 2 first. */
  lemma TwoBeforeTen<S>(x: seq<S>, y: seq<S>)
    ensures Assembly.ConcatenateAudio([(10, [("a", x)]), (2, [("b", y)])]) == y + x
  {
    var groups: Assembly.Groups<S> := [(10, [("a", x)]), (2, [("b", y)])];
    var indices: seq<nat> := [2, 10];
    Order.NatLessIsStrictTotalOrder();
    assert Order.NatLess(indices[0], indices[1]);
    assert Order.StrictlySortedBy(indices, Order.NatLess);
    assert Dicts.Keys(groups) == [10, 2];
    Assembly.ConcatenateInNumericOrder(groups, indices);
    assert Dicts.Get(groups, 2) == Some([("b", y)]) && Dicts.Get(groups, 10) == Some([("a", x)]);
    assert Dicts.Values([("b", y)]) == [y] && Dicts.Values([("a", x)]) == [x];
    assert Assembly.JoinClips([y]) == y && Assembly.JoinClips([x]) == x;
    assert Assembly.JoinGroups(groups, indices[1..][1..]) == [];
  }

  lemma TenAndTwoKeys(u: Unicode)
    requires AgreesOnAscii(u)
    ensures Assembly.MatchClip(u, "10_a.wav") == Some(Assembly.ClipKey(10, "a"))
    ensures Assembly.MatchClip(u, "2_b.wav") == Some(Assembly.ClipKey(2, "b"))
  {
    assert IsAscii('0') && IsAscii('1') && IsAscii('2');
    assert AllAsciiLetters("a") && AsciiLower("a") == "a";
    assert AllAsciiLetters("b") && AsciiLower("b") == "b";
    assert ParseDecimal(u, "1") == 1 by {
      assert "1"[..0] == [];
    }
    assert ParseDecimal(u, "10") == 10 by {
      assert "10"[..1] == "1";
    }
    assert ParseDecimal(u, "2") == 2 by {
      assert "2"[..0] == [];
    }
    assert Assembly.ClipShape(u, "10_a.wav", "10", "a") by {
      assert "10" + "_" + "a" + ".wav" == "10_a.wav";
    }
    assert Assembly.ClipShape(u, "2_b.wav", "2", "b") by {
      assert "2" + "_" + "b" + ".wav" == "2_b.wav";
    }
    Assembly.MatchClipComplete(u, "10_a.wav", "10", "a");
    Assembly.MatchClipComplete(u, "2_b.wav", "2", "b");
  }

  /** The listing `["10_a.wav", "2_b.wav"]` is already in `sorted()` order. */
  lemma TenAndTwoSorted<S>(u: Unicode, decode: string -> Option<seq<S>>)
    ensures Order.Less("10_a.wav", "2_b.wav")
    ensures Assembly.LoadAudioFiles(u, decode, ["10_a.wav", "2_b.wav"])
         == Assembly.LoadAll(u, decode, ["10_a.wav", "2_b.wav"])
  {
    var listing := ["10_a.wav", "2_b.wav"];
    Order.LessIsStrictTotalOrder();
    assert Order.Less(listing[0], listing[1]);
    assert Order.SortedBy(listing, Order.Less);
    Order.SortedUnique(Order.Sort(listing, Order.Less), listing, Order.Less);
  }

  /** End to end on a parsed script: the i-th tagged line is requested exactly
      when its speaker has a voice, and then with its own spoken text, under the
      clip name for line i + 1. */
  lemma ParsedLineRequested(lines: seq<string>, cfg: Synthesis.Config, i: nat)
    requires ScriptModel.Tags(lines) != []
    requires i < |ScriptModel.Entries(lines)|
    ensures var es := Synthesis.GenerateAudio(ScriptModel.Parse(lines), cfg).events;
      var t := ScriptModel.Entries(lines)[i];
      && |es| == |ScriptModel.Entries(lines)|
      && (es[i].outcome.Requested? <==> Synthesis.VoiceOf(cfg.voices, t.speaker) != "")
      && (es[i].outcome.Requested? ==>
            && es[i].outcome.request.text == ScriptModel.Spoken(t)
            && es[i].outcome.request.filename == Synthesis.ClipName(cfg.u, i + 1, t.speaker))
  {
    var sc := ScriptModel.Parse(lines);
    ScriptModel.ParseConsistent(lines);
    ScriptModel.ParseLinesCorrespond(lines, i);
    assert sc.order[i] == ScriptModel.Entries(lines)[i].speaker;
    Synthesis.RequestContents(sc, cfg, i);
  }

  /** A script with no tagged line yields no request at all: its only order
      entries are the `""` of each `[]:` line, and each of them is skipped,
      by the voice check or, if the voice map has an entry for `""`, by the
      bounds check. */
  lemma UntaggedScriptRequestsNothing(lines: seq<string>, cfg: Synthesis.Config)
    requires ScriptModel.Tags(lines) == []
    ensures var es := Synthesis.GenerateAudio(ScriptModel.Parse(lines), cfg).events;
      && |es| == ScriptModel.BareTagLines(lines)
      && forall i :: 0 <= i < |es| ==>
           && es[i].speaker == ""
           && es[i].outcome == (if Synthesis.VoiceOf(cfg.voices, "") == "" then Synthesis.NoVoice else Synthesis.OutOfBounds)
  {
    var sc := ScriptModel.Parse(lines);
    ScriptModel.ParseUntagged(lines);
    Synthesis.RunWithoutLines(sc, cfg, |sc.order|);
    Synthesis.RunReport(sc, cfg, |sc.order|);
  }
}
