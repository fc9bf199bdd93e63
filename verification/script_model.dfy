/** The three parsing passes of `PodcastScriptProcessor` over the lines of a
    dialogue script: speaker names, speaker order and lines per speaker.  Every
    pass looks at a line only after Python's `str.strip()`. */
module ScriptModel {
  import opened Options
  import opened Chars
  import Order

  /** A stripped line that reads `[speaker]:rest`. */
  datatype TaggedLine = TaggedLine(speaker: string, rest: string)

  /** What the passes produce; the fields of a loaded `PodcastScriptProcessor`. */
  datatype Script = Script(
    names: seq<string>,                             // speaker_names
    order: seq<string>,                             // speaker_orders
    linesPerSpeaker: map<string, seq<string>>)      // lines_per_speaker

  /** `s` is `[name]:rest` with a non-empty, `]`-free name: the tag grammar. */
  ghost predicate IsTagged(s: string, name: string, rest: string) {
    && s == "[" + name + "]:" + rest
    && |name| > 0
    && ']' !in name
  }

  /** The index of the first `]` in `s`, or `|s|` when there is none. */
  function CloseBracket(s: string): (k: nat)
    ensures k <= |s|
    ensures k < |s| ==> s[k] == ']'
    ensures forall i :: 0 <= i < k ==> s[i] != ']'
  {
    if |s| == 0 || s[0] == ']' then 0 else 1 + CloseBracket(s[1..])
  }

  /** The match of `^\[([^\]]+)\]:` on a stripped line; `rest` is what follows the colon. */
  function Tag(s: string): (r: Option<TaggedLine>)
    ensures r.Some? ==> IsTagged(s, r.value.speaker, r.value.rest)
  {
    if |s| == 0 || s[0] != '[' then None
    else
      var k := 1 + CloseBracket(s[1..]);
      if k == 1 || k + 1 >= |s| || s[k + 1] != ':' then None
      else
        assert s == "[" + s[1..k] + "]:" + s[k + 2..];
        Some(TaggedLine(s[1..k], s[k + 2..]))
  }

  /** In a tagged line the name runs exactly up to the first `]`. */
  lemma TaggedSplit(s: string, name: string, rest: string)
    requires IsTagged(s, name, rest)
    ensures |s| > 0 && s[0] == '['
    ensures 1 + CloseBracket(s[1..]) == |name| + 1
    ensures s[|name| + 2] == ':'
    ensures s[1..|name| + 1] == name && s[|name| + 3..] == rest
  {
    assert s[1..][|name|] == ']';
    assert forall i :: 0 <= i < |name| ==> s[1..][i] == name[i] && s[1..][i] != ']';
  }

  /** Every line of the form `[name]:rest` is matched, capturing `name` and `rest`. */
  lemma TagComplete(s: string, name: string, rest: string)
    requires IsTagged(s, name, rest)
    ensures Tag(s) == Some(TaggedLine(name, rest))
  {
    TaggedSplit(s, name, rest);
  }

  function TagOfLine(line: string): Option<TaggedLine> {
    Tag(Strip(line))
  }

  /** The tagged lines of a script, top to bottom. */
  function Entries(lines: seq<string>): (es: seq<TaggedLine>)
    ensures |es| <= |lines|
  {
    if |lines| == 0 then []
    else
      var es := Entries(lines[..|lines| - 1]);
      match TagOfLine(lines[|lines| - 1])
      case Some(t) => es + [t]
      case None => es
  }

  /** The tag of every tagged line, top to bottom. */
  function Tags(lines: seq<string>): (tags: seq<string>)
    ensures |tags| == |Entries(lines)|
  {
    var es := Entries(lines);
    seq(|es|, i requires 0 <= i < |es| => es[i].speaker)
  }

  /** Spoken content of a tagged line: the `(.*)` after the colon, stripped. */
  function Spoken(t: TaggedLine): string {
    Strip(UpToNewline(t.rest))
  }

  // ---------------------------------------------------------------------------
  // Pass 1: speaker names

  /** `_extract_speaker_names`: the set of tags, sorted. */
  function SpeakerNames(lines: seq<string>): (names: seq<string>)
    ensures Order.StrictlySortedBy(names, Order.Less)
    ensures forall x :: x in names <==> x in Tags(lines)
  {
    Order.LessIsStrictTotalOrder();
    Order.SortedSet(Tags(lines), Order.Less)
  }

  /** A script line carries tag `name`. */
  ghost predicate LineTaggedAs(line: string, name: string) {
    exists rest :: IsTagged(Strip(line), name, rest)
  }

  lemma {:induction false} TagsAreLineTags(lines: seq<string>, x: string)
    ensures x in Tags(lines) <==> exists i :: 0 <= i < |lines| && LineTaggedAs(lines[i], x)
  {
    if |lines| > 0 {
      var init := lines[..|lines| - 1];
      var last := lines[|lines| - 1];
      TagsAreLineTags(init, x);
      TagsSnoc(lines);
      if x in Tags(lines) {
        if x in Tags(init) {
          var i :| 0 <= i < |init| && LineTaggedAs(init[i], x);
          assert lines[i] == init[i];
        } else {
          var t := TagOfLine(last).value;
          assert LineTaggedAs(lines[|lines| - 1], x);
        }
      }
      if exists i :: 0 <= i < |lines| && LineTaggedAs(lines[i], x) {
        var i :| 0 <= i < |lines| && LineTaggedAs(lines[i], x);
        var rest :| IsTagged(Strip(lines[i]), x, rest);
        if i < |init| {
          assert init[i] == lines[i];
        } else {
          TagComplete(Strip(last), x, rest);
        }
      }
    }
  }

  /** How Tags grows by one line. */
  lemma TagsSnoc(lines: seq<string>)
    requires |lines| > 0
    ensures Tags(lines) == Tags(lines[..|lines| - 1]) +
      (match TagOfLine(lines[|lines| - 1]) case Some(t) => [t.speaker] case None => [])
  {
  }

  /** Speaker names are distinct, ascending in Python's `str` order, and exactly
      the bracket contents of the tagged lines. */
  lemma SpeakerNamesSpec(lines: seq<string>)
    ensures Order.StrictlySortedBy(SpeakerNames(lines), Order.Less)
    ensures Order.NoDuplicates(SpeakerNames(lines))
    ensures forall x :: x in SpeakerNames(lines) <==>
      exists i :: 0 <= i < |lines| && LineTaggedAs(lines[i], x)
  {
    Order.LessIsStrictTotalOrder();
    forall x ensures x in SpeakerNames(lines) <==> exists i :: 0 <= i < |lines| && LineTaggedAs(lines[i], x) {
      TagsAreLineTags(lines, x);
    }
  }

  lemma TagNamesWellFormed(lines: seq<string>)
    ensures forall x :: x in Tags(lines) ==> |x| > 0 && ']' !in x
  {
    forall x | x in Tags(lines) ensures |x| > 0 && ']' !in x {
      TagsAreLineTags(lines, x);
    }
  }

  // ---------------------------------------------------------------------------
  // Pass 2: speaker order

  /** The alternatives of `^\[(n1|n2|...)\]:`; joining no names leaves one empty alternative. */
  function Alternatives(names: seq<string>): seq<string> {
    if |names| == 0 then [""] else names
  }

  /** Regex alternation: the first alternative `a` with `[a]:` a prefix of `s`. */
  function FirstAlternative(s: string, alts: seq<string>): (r: Option<string>)
    ensures r.Some? ==> r.value in alts && "[" + r.value + "]:" <= s
    ensures r.None? ==> forall a :: a in alts ==> !("[" + a + "]:" <= s)
  {
    if |alts| == 0 then None
    else if "[" + alts[0] + "]:" <= s then Some(alts[0])
    else FirstAlternative(s, alts[1..])
  }

  /** `_extract_speaker_order`, given the names found by pass 1. */
  function SpeakerOrder(lines: seq<string>, names: seq<string>): (order: seq<string>)
    ensures |order| <= |lines|
  {
    if |lines| == 0 then []
    else
      var order := SpeakerOrder(lines[..|lines| - 1], names);
      match FirstAlternative(Strip(lines[|lines| - 1]), Alternatives(names))
      case Some(a) => order + [a]
      case None => order
  }

  /** With well-formed names, the alternation matches a line exactly when its
      tag is one of the names, and then captures that tag. */
  lemma AlternationMatchesTag(s: string, names: seq<string>)
    requires forall a :: a in names ==> |a| > 0 && ']' !in a
    ensures FirstAlternative(s, names) ==
      (if Tag(s).Some? && Tag(s).value.speaker in names then Some(Tag(s).value.speaker) else None)
  {
    var r := FirstAlternative(s, names);
    if r.Some? {
      var a := r.value;
      var rest := s[|a| + 3..];
      assert s == "[" + a + "]:" + rest;
      TagComplete(s, a, rest);
    }
    if Tag(s).Some? && Tag(s).value.speaker in names {
      var t := Tag(s).value;
      assert "[" + t.speaker + "]:" <= s;
      TagComplete(s, t.speaker, t.rest);
    }
  }

  /** When the names cover every tag and are themselves well formed, the order is the tags. */
  lemma {:induction false} SpeakerOrderIsTags(lines: seq<string>, names: seq<string>)
    requires names != []
    requires forall a :: a in names ==> |a| > 0 && ']' !in a
    requires forall x :: x in Tags(lines) ==> x in names
    ensures SpeakerOrder(lines, names) == Tags(lines)
  {
    if |lines| > 0 {
      var init := lines[..|lines| - 1];
      TagsSnoc(lines);
      assert forall x :: x in Tags(init) ==> x in Tags(lines);
      SpeakerOrderIsTags(init, names);
      AlternationMatchesTag(Strip(lines[|lines| - 1]), names);
    }
  }

  /** One entry per tagged line, in script order, equal to that line's tag. */
  lemma SpeakerOrderOfTaggedScript(lines: seq<string>)
    requires Tags(lines) != []
    ensures SpeakerOrder(lines, SpeakerNames(lines)) == Tags(lines)
  {
    TagNamesWellFormed(lines);
    assert Tags(lines)[0] in SpeakerNames(lines);
    SpeakerOrderIsTags(lines, SpeakerNames(lines));
  }

  /** The stripped lines that start with `[]:`. */
  function BareTagLines(lines: seq<string>): nat {
    if |lines| == 0 then 0
    else BareTagLines(lines[..|lines| - 1]) + (if "[]:" <= Strip(lines[|lines| - 1]) then 1 else 0)
  }

  /** With no names the pattern degenerates to `^\[()\]:`. */
  lemma {:induction false} SpeakerOrderWithoutNames(lines: seq<string>)
    ensures |SpeakerOrder(lines, [])| == BareTagLines(lines)
    ensures forall i :: 0 <= i < |SpeakerOrder(lines, [])| ==> SpeakerOrder(lines, [])[i] == ""
  {
    if |lines| > 0 {
      SpeakerOrderWithoutNames(lines[..|lines| - 1]);
    }
  }

  /** A script with no tagged line yields an empty `""` entry per `[]:` line. */
  lemma SpeakerOrderOfUntaggedScript(lines: seq<string>)
    requires Tags(lines) == []
    ensures SpeakerNames(lines) == []
    ensures |SpeakerOrder(lines, SpeakerNames(lines))| == BareTagLines(lines)
    ensures forall x :: x in SpeakerOrder(lines, SpeakerNames(lines)) ==> x == ""
  {
    var names := SpeakerNames(lines);
    Order.EmptyOrHasHead(names);
    SpeakerOrderWithoutNames(lines);
  }

  // ---------------------------------------------------------------------------
  // Pass 3: lines per speaker

  /** `_extract_lines_per_speaker`, given the names found by pass 1.  A tag that is
      not a name would make `speaker_lines[name]` raise KeyError: `None`. */
  function LinesPerSpeaker(lines: seq<string>, names: seq<string>): Option<map<string, seq<string>>> {
    if |lines| == 0 then Some(map s | s in names :: [])
    else
      match LinesPerSpeaker(lines[..|lines| - 1], names)
      case None => None
      case Some(acc) =>
        match TagOfLine(lines[|lines| - 1])
        case None => Some(acc)
        case Some(t) =>
          if t.speaker in acc then Some(acc[t.speaker := acc[t.speaker] + [Spoken(t)]]) else None
  }

  /** Reference definition: the spoken text of `s`'s tagged lines, in order. */
  function TextsOf(es: seq<TaggedLine>, s: string): seq<string> {
    if |es| == 0 then []
    else TextsOf(es[..|es| - 1], s) + (if es[|es| - 1].speaker == s then [Spoken(es[|es| - 1])] else [])
  }

  /** Pass 3 succeeds exactly when every tag is a name, and then maps each name
      to the stripped texts of its tagged lines in script order. */
  lemma {:induction false} LinesPerSpeakerSpec(lines: seq<string>, names: seq<string>)
    ensures LinesPerSpeaker(lines, names).Some? <==> forall x :: x in Tags(lines) ==> x in names
    ensures LinesPerSpeaker(lines, names).Some? ==>
      && (forall s :: s in LinesPerSpeaker(lines, names).value <==> s in names)
      && (forall s :: s in names ==> LinesPerSpeaker(lines, names).value[s] == TextsOf(Entries(lines), s))
  {
    if |lines| > 0 {
      LinesPerSpeakerSpec(lines[..|lines| - 1], names);
      PassThreeStep(lines, names);
    }
  }

  /** What LinesPerSpeakerSpec states, for one script. */
  ghost predicate PassThreeAgrees(lines: seq<string>, names: seq<string>) {
    && (LinesPerSpeaker(lines, names).Some? <==> forall x :: x in Tags(lines) ==> x in names)
    && (LinesPerSpeaker(lines, names).Some? ==>
          && (forall s :: s in LinesPerSpeaker(lines, names).value <==> s in names)
          && (forall s :: s in names ==> LinesPerSpeaker(lines, names).value[s] == TextsOf(Entries(lines), s)))
  }

  /** The inductive step of LinesPerSpeakerSpec: one more script line. */
  lemma PassThreeStep(lines: seq<string>, names: seq<string>)
    requires |lines| > 0
    requires PassThreeAgrees(lines[..|lines| - 1], names)
    ensures PassThreeAgrees(lines, names)
  {
    var init, last := lines[..|lines| - 1], lines[|lines| - 1];
    TagsSnoc(lines);
    match TagOfLine(last)
    case None =>
      assert Entries(lines) == Entries(init);
      assert LinesPerSpeaker(lines, names) == LinesPerSpeaker(init, names);
    case Some(t) =>
      var es := Entries(lines);
      assert es == Entries(init) + [t];
      assert es[..|es| - 1] == Entries(init);
      assert forall x :: x in Tags(lines) <==> x in Tags(init) || x == t.speaker;
      TaggedLineStored(lines, names, t);
  }

  lemma TaggedLineStored(lines: seq<string>, names: seq<string>, t: TaggedLine)
    requires |lines| > 0 && TagOfLine(lines[|lines| - 1]) == Some(t)
    requires PassThreeAgrees(lines[..|lines| - 1], names)
    requires Entries(lines)[..|Entries(lines)| - 1] == Entries(lines[..|lines| - 1])
    requires |Entries(lines)| > 0 && Entries(lines)[|Entries(lines)| - 1] == t
    requires forall x :: x in Tags(lines) <==> x in Tags(lines[..|lines| - 1]) || x == t.speaker
    ensures PassThreeAgrees(lines, names)
  {
    var init := lines[..|lines| - 1];
    var es := Entries(lines);
    match LinesPerSpeaker(init, names)
    case None =>
    case Some(acc) =>
      if t.speaker in acc {
        var r := acc[t.speaker := acc[t.speaker] + [Spoken(t)]];
        assert LinesPerSpeaker(lines, names) == Some(r);
        forall s | s in names ensures r[s] == TextsOf(es, s) {
          assert TextsOf(es, s) == TextsOf(Entries(init), s) + (if t.speaker == s then [Spoken(t)] else []);
        }
      }
  }

  /** Per-speaker line counts agree with the speaker's occurrences among the tags. */
  lemma {:induction false} TextsCount(es: seq<TaggedLine>, s: string)
    ensures |TextsOf(es, s)| == multiset(seq(|es|, i requires 0 <= i < |es| => es[i].speaker))[s]
  {
    if |es| > 0 {
      var init := es[..|es| - 1];
      TextsCount(init, s);
      var sp := seq(|es|, i requires 0 <= i < |es| => es[i].speaker);
      assert sp == seq(|init|, i requires 0 <= i < |init| => init[i].speaker) + [es[|es| - 1].speaker];
    }
  }

  /** The k-th text of a speaker belongs to that speaker's k-th tagged line. */
  lemma {:induction false} TextsIndex(es: seq<TaggedLine>, i: nat)
    requires i < |es|
    ensures var sp := seq(|es|, j requires 0 <= j < |es| => es[j].speaker);
      var k := multiset(sp[..i])[es[i].speaker];
      k < |TextsOf(es, es[i].speaker)| && TextsOf(es, es[i].speaker)[k] == Spoken(es[i])
  {
    var s := es[i].speaker;
    var init := es[..|es| - 1];
    var sp := seq(|es|, j requires 0 <= j < |es| => es[j].speaker);
    var spInit := seq(|init|, j requires 0 <= j < |init| => init[j].speaker);
    assert sp == spInit + [es[|es| - 1].speaker];
    if i == |es| - 1 {
      TextsCount(init, s);
      assert sp[..i] == spInit;
    } else {
      TextsIndex(init, i);
      assert sp[..i] == spInit[..i];
    }
  }

  // ---------------------------------------------------------------------------
  // The three passes together

  /** `PodcastScriptProcessor.__init__` after `_read_script`. */
  function Parse(lines: seq<string>): (sc: Script)
    ensures sc.names == SpeakerNames(lines)
    ensures sc.order == SpeakerOrder(lines, sc.names)
    ensures LinesPerSpeaker(lines, sc.names) == Some(sc.linesPerSpeaker)
  {
    var names := SpeakerNames(lines);
    LinesPerSpeakerSpec(lines, names);
    Script(names, SpeakerOrder(lines, names), LinesPerSpeaker(lines, names).value)
  }

  /** The data-model invariant: lines-per-speaker has exactly the names as keys,
      every order entry is a name, and each name has as many lines as order entries. */
  ghost predicate Consistent(sc: Script) {
    && (forall s :: s in sc.linesPerSpeaker <==> s in sc.names)
    && (forall i :: 0 <= i < |sc.order| ==> sc.order[i] in sc.names)
    && (forall s :: s in sc.linesPerSpeaker ==> |sc.linesPerSpeaker[s]| == multiset(sc.order)[s])
  }

  /** A script with no tagged line parses to no names, no lines, and a `""`
      entry in the order for each `[]:` line. */
  lemma ParseUntagged(lines: seq<string>)
    requires Tags(lines) == []
    ensures var sc := Parse(lines);
      && sc.names == []
      && sc.linesPerSpeaker == map[]
      && |sc.order| == BareTagLines(lines)
      && forall i :: 0 <= i < |sc.order| ==> sc.order[i] == ""
  {
    var sc := Parse(lines);
    SpeakerOrderOfUntaggedScript(lines);
    LinesPerSpeakerSpec(lines, sc.names);
    assert forall i :: 0 <= i < |sc.order| ==> sc.order[i] in sc.order;
  }

  /** A script with at least one tagged line parses into a consistent model. */
  lemma ParseConsistent(lines: seq<string>)
    requires Tags(lines) != []
    ensures Consistent(Parse(lines))
  {
    ParseKeys(lines);
    ParseOrderNamed(lines);
    ParseCounts(lines);
  }

  /** The parsed lines-per-speaker has exactly the names as keys. */
  lemma ParseKeys(lines: seq<string>)
    ensures var sc := Parse(lines);
      forall s :: s in sc.linesPerSpeaker <==> s in sc.names
  {
    LinesPerSpeakerSpec(lines, SpeakerNames(lines));
  }

  /** Every entry of the parsed order of a tagged script is a name. */
  lemma ParseOrderNamed(lines: seq<string>)
    requires Tags(lines) != []
    ensures var sc := Parse(lines);
      forall i :: 0 <= i < |sc.order| ==> sc.order[i] in sc.names
  {
    SpeakerOrderOfTaggedScript(lines);
    var sc := Parse(lines);
    assert sc.order == Tags(lines);
  }

  /** Each parsed name has as many lines as entries in the order. */
  lemma ParseCounts(lines: seq<string>)
    requires Tags(lines) != []
    ensures var sc := Parse(lines);
      forall s :: s in sc.linesPerSpeaker ==> |sc.linesPerSpeaker[s]| == multiset(sc.order)[s]
  {
    var sc := Parse(lines);
    SpeakerOrderOfTaggedScript(lines);
    LinesPerSpeakerSpec(lines, sc.names);
    forall s | s in sc.linesPerSpeaker ensures |sc.linesPerSpeaker[s]| == multiset(sc.order)[s] {
      TextsCount(Entries(lines), s);
    }
  }

  /** The k-th occurrence of a speaker in the order is that speaker's k-th line,
      and carries the spoken text of the corresponding tagged line. */
  lemma ParseLinesCorrespond(lines: seq<string>, i: nat)
    requires i < |Entries(lines)|
    ensures Parse(lines).order == Tags(lines)
    ensures var sc := Parse(lines);
      var s := sc.order[i];
      var k := multiset(sc.order[..i])[s];
      && s in sc.linesPerSpeaker
      && k < |sc.linesPerSpeaker[s]|
      && sc.linesPerSpeaker[s][k] == Spoken(Entries(lines)[i])
  {
    var names := SpeakerNames(lines);
    var es := Entries(lines);
    assert Tags(lines)[i] in Tags(lines);
    SpeakerOrderOfTaggedScript(lines);
    LinesPerSpeakerSpec(lines, names);
    TextsIndex(es, i);
  }
}
