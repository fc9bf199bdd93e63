/** `AudioConcatenator`: recover `(line number, speaker)` from clip filenames,
    group the decodable clips by line number, and join them in ascending numeric
    order.  A clip is an opaque sequence of samples, decoding is an oracle that may
    fail, and joining two clips is sequence concatenation. */
module Assembly {
  import opened Options
  import opened Chars
  import opened Dicts
  import Order

  /** A clip's key: the value of its leading digits and its lowered speaker letters. */
  datatype ClipKey = ClipKey(index: nat, speaker: string)

  // ---------------------------------------------------------------------------
  // The filename pattern `(\d+)_([a-zA-Z]+)\.wav`, applied with `re.match`

  /** Length of the longest prefix of `\d` characters. */
  function DecimalRun(u: Unicode, s: string): (n: nat)
    ensures n <= |s|
    ensures forall i :: 0 <= i < n ==> u.isDecimal(s[i])
    ensures n < |s| ==> !u.isDecimal(s[n])
  {
    if |s| == 0 || !u.isDecimal(s[0]) then 0 else 1 + DecimalRun(u, s[1..])
  }

  /** Length of the longest prefix of `[a-zA-Z]` characters. */
  function LetterRun(s: string): (n: nat)
    ensures n <= |s|
    ensures forall i :: 0 <= i < n ==> IsAsciiLetter(s[i])
    ensures n < |s| ==> !IsAsciiLetter(s[n])
  {
    if |s| == 0 || !IsAsciiLetter(s[0]) then 0 else 1 + LetterRun(s[1..])
  }

  /** `self.pattern.match(filename)` and the key built from its groups.  Both
      repetitions are greedy and neither can give back a character (`_` is no
      digit, `.` no letter), so the longest runs decide the match. */
  function MatchClip(u: Unicode, name: string): Option<ClipKey> {
    var d := DecimalRun(u, name);
    if d == 0 || d == |name| || name[d] != '_' then None
    else
      var rest := name[d + 1..];
      var l := LetterRun(rest);
      if l == 0 || !(".wav" <= rest[l..]) then None
      else Some(ClipKey(ParseDecimal(u, name[..d]), AsciiLower(rest[..l])))
  }

  /** `name` begins with digits, `_`, ASCII letters and `.wav`, in that order;
      anything may follow. */
  ghost predicate ClipShape(u: Unicode, name: string, digits: string, letters: string) {
    && |digits| > 0
    && (forall i :: 0 <= i < |digits| ==> u.isDecimal(digits[i]))
    && |letters| > 0
    && AllAsciiLetters(letters)
    && digits + "_" + letters + ".wav" <= name
  }

  /** Every accepted name has the shape, and its key comes from the shape's parts. */
  lemma MatchClipSound(u: Unicode, name: string)
    requires MatchClip(u, name).Some?
    ensures exists digits, letters ::
      && ClipShape(u, name, digits, letters)
      && MatchClip(u, name) == Some(ClipKey(ParseDecimal(u, digits), AsciiLower(letters)))
  {
    var d := DecimalRun(u, name);
    var rest := name[d + 1..];
    var l := LetterRun(rest);
    ShapeOfRuns(u, name, d, l);
  }

  /** The runs MatchClip finds, when it accepts, cut the name into the shape's parts. */
  lemma ShapeOfRuns(u: Unicode, name: string, d: nat, l: nat)
    requires 0 < d < |name| && name[d] == '_'
    requires forall i :: 0 <= i < d ==> u.isDecimal(name[i])
    requires 0 < l <= |name| - (d + 1)
    requires AllAsciiLetters(name[d + 1..][..l])
    requires ".wav" <= name[d + 1..][l..]
    ensures ClipShape(u, name, name[..d], name[d + 1..][..l])
  {
    var digits, letters := name[..d], name[d + 1..][..l];
    var shape := digits + "_" + letters + ".wav";
    var tail := name[d + 1..][l..];
    assert |shape| <= |name|;
    forall i | 0 <= i < |shape| ensures shape[i] == name[i] {
      if i < d {
        assert shape[i] == digits[i];
      } else if i == d {
        assert shape[i] == '_';
      } else if i < d + 1 + l {
        assert shape[i] == letters[i - (d + 1)];
      } else {
        assert shape[i] == ".wav"[i - (d + 1 + l)] == tail[i - (d + 1 + l)];
      }
    }
    assert shape == name[..|shape|];
  }

  /** Every name with the shape is accepted, whatever trails `.wav`. */
  lemma MatchClipComplete(u: Unicode, name: string, digits: string, letters: string)
    requires AgreesOnAscii(u)
    requires ClipShape(u, name, digits, letters)
    ensures MatchClip(u, name) == Some(ClipKey(ParseDecimal(u, digits), AsciiLower(letters)))
  {
    var d := DecimalRun(u, name);
    assert name[|digits|] == '_' && IsAscii('_');
    assert forall i :: 0 <= i < |digits| ==> name[i] == digits[i];
    assert d == |digits|;
    assert name[..d] == digits;
    var rest := name[d + 1..];
    assert rest[|letters|] == '.';
    assert forall i :: 0 <= i < |letters| ==> rest[i] == letters[i];
    assert LetterRun(rest) == |letters|;
    assert rest[..|letters|] == letters;
    assert ".wav" <= rest[|letters|..];
  }

  /** A name that does not start with a `\d` character is never grouped. */
  lemma NonDigitStartRejected(u: Unicode, name: string)
    requires |name| == 0 || !u.isDecimal(name[0])
    ensures MatchClip(u, name) == None
  {
  }

  /** The assembler's own default output, `final_output.wav`, never matches. */
  lemma FinalOutputRejected(u: Unicode)
    requires AgreesOnAscii(u)
    ensures MatchClip(u, "final_output.wav") == None
  {
    assert IsAscii('f');
    NonDigitStartRejected(u, "final_output.wav");
  }

  // ---------------------------------------------------------------------------
  // `load_audio_files`

  /** `self.audio_groups`: line number -> (lowered speaker -> clip), both in insertion order. */
  type Groups<S> = Dict<nat, Dict<string, seq<S>>>

  /** A file that is both matched and decoded, with its key and clip. */
  predicate Loadable<S>(u: Unicode, decode: string -> Option<seq<S>>, name: string) {
    MatchClip(u, name).Some? && decode(name).Some?
  }

  /** One iteration of the loading loop: a matched name whose decode fails is
      skipped; otherwise the clip is stored under its line number and speaker. */
  function LoadOne<S>(u: Unicode, decode: string -> Option<seq<S>>, groups: Groups<S>, name: string): (r: Groups<S>)
    ensures !Loadable(u, decode, name) ==> r == groups
  {
    match MatchClip(u, name)
    case None => groups
    case Some(key) =>
      match decode(name)
      case None => groups
      case Some(clip) =>
        Put(groups, key.index, Put(Get(groups, key.index).GetOr([]), key.speaker, clip))
  }

  /** The loading loop over an already sorted listing. */
  function LoadAll<S>(u: Unicode, decode: string -> Option<seq<S>>, names: seq<string>): Groups<S> {
    if |names| == 0 then []
    else LoadOne(u, decode, LoadAll(u, decode, names[..|names| - 1]), names[|names| - 1])
  }

  /** `load_audio_files`: the loading loop over the directory listing in sorted order. */
  function LoadAudioFiles<S>(u: Unicode, decode: string -> Option<seq<S>>, listing: seq<string>): Groups<S> {
    Order.LessIsStrictTotalOrder();
    LoadAll(u, decode, Order.Sort(listing, Order.Less))
  }

  /** The clip stored under a key, if any. */
  function Lookup<S>(groups: Groups<S>, key: ClipKey): Option<seq<S>> {
    match Get(groups, key.index)
    case None => None
    case Some(inner) => Get(inner, key.speaker)
  }

  /** Reference definition of last-write-wins: the decoded clip of the last
      loadable name with this key. */
  function LastClip<S>(u: Unicode, decode: string -> Option<seq<S>>, names: seq<string>, key: ClipKey): Option<seq<S>> {
    if |names| == 0 then None
    else
      var n := names[|names| - 1];
      if Loadable(u, decode, n) && MatchClip(u, n).value == key then decode(n)
      else LastClip(u, decode, names[..|names| - 1], key)
  }

  /** Loading keeps, for every key, exactly the clip of the last loadable file
      with that key; files whose decode fails contribute nothing. */
  lemma {:induction false} LoadLastWriteWins<S>(u: Unicode, decode: string -> Option<seq<S>>, names: seq<string>, key: ClipKey)
    ensures Lookup(LoadAll(u, decode, names), key) == LastClip(u, decode, names, key)
  {
    if |names| > 0 {
      LoadLastWriteWins(u, decode, names[..|names| - 1], key);
      LoadOneLookup(u, decode, LoadAll(u, decode, names[..|names| - 1]), names[|names| - 1], key);
    }
  }

  /** The loading loop continued from the groups an object already holds:
      `self.audio_groups` is created once per object and never cleared. */
  function LoadFrom<S>(u: Unicode, decode: string -> Option<seq<S>>, groups: Groups<S>, names: seq<string>): Groups<S> {
    if |names| == 0 then groups
    else LoadOne(u, decode, LoadFrom(u, decode, groups, names[..|names| - 1]), names[|names| - 1])
  }

  /** `load_audio_files` called on an object that already holds `groups`. */
  function ReloadAudioFiles<S>(u: Unicode, decode: string -> Option<seq<S>>, groups: Groups<S>, listing: seq<string>): Groups<S> {
    Order.LessIsStrictTotalOrder();
    LoadFrom(u, decode, groups, Order.Sort(listing, Order.Less))
  }

  /** Continuing from no groups is the loading loop of a fresh object. */
  lemma {:induction false} LoadFromFresh<S>(u: Unicode, decode: string -> Option<seq<S>>, names: seq<string>)
    ensures LoadFrom(u, decode, [], names) == LoadAll(u, decode, names)
  {
    if |names| > 0 {
      LoadFromFresh(u, decode, names[..|names| - 1]);
    }
  }

  /** The first call on a fresh object is LoadAudioFiles. */
  lemma FirstLoadIsFresh<S>(u: Unicode, decode: string -> Option<seq<S>>, listing: seq<string>)
    ensures ReloadAudioFiles(u, decode, [], listing) == LoadAudioFiles(u, decode, listing)
  {
    Order.LessIsStrictTotalOrder();
    LoadFromFresh(u, decode, Order.Sort(listing, Order.Less));
  }

  /** Continuing the loop, a key holds the clip of its last loadable file among
      the new names, and when there is none, whatever it held before: clips of
      files no longer listed survive. */
  lemma {:induction false} LoadFromLookup<S>(u: Unicode, decode: string -> Option<seq<S>>, groups: Groups<S>,
                                             names: seq<string>, key: ClipKey)
    ensures Lookup(LoadFrom(u, decode, groups, names), key)
         == if LastClip(u, decode, names, key).Some? then LastClip(u, decode, names, key) else Lookup(groups, key)
  {
    if |names| > 0 {
      LoadFromLookup(u, decode, groups, names[..|names| - 1], key);
      LoadOneLookup(u, decode, LoadFrom(u, decode, groups, names[..|names| - 1]), names[|names| - 1], key);
    }
  }

  /** No loadable name in `names` has the key. */
  predicate NoLoadableWithKey<S>(u: Unicode, decode: string -> Option<seq<S>>, names: seq<string>, key: ClipKey) {
    forall n :: n in names && Loadable(u, decode, n) ==> MatchClip(u, n).value != key
  }

  /** A second `load_audio_files` on the same object keeps a stale clip under
      every key that no loadable file of the new listing has. */
  lemma ReloadKeepsStale<S>(u: Unicode, decode: string -> Option<seq<S>>, groups: Groups<S>,
                            listing: seq<string>, key: ClipKey)
    requires NoLoadableWithKey(u, decode, listing, key)
    ensures Lookup(ReloadAudioFiles(u, decode, groups, listing), key) == Lookup(groups, key)
  {
    Order.LessIsStrictTotalOrder();
    var sorted := Order.Sort(listing, Order.Less);
    forall n | n in sorted ensures n in listing {
      assert n in multiset(sorted);
    }
    NoLastClip(u, decode, sorted, key);
    LoadFromLookup(u, decode, groups, sorted, key);
  }

  /** Without a loadable name for the key, there is no last clip for it. */
  lemma {:induction false} NoLastClip<S>(u: Unicode, decode: string -> Option<seq<S>>, names: seq<string>, key: ClipKey)
    requires NoLoadableWithKey(u, decode, names, key)
    ensures LastClip(u, decode, names, key) == None
  {
    if |names| > 0 {
      var init := names[..|names| - 1];
      assert names[|names| - 1] in names;
      assert forall n :: n in init ==> n in names;
      NoLastClip(u, decode, init, key);
    }
  }

  /** One loading step replaces the clip under the loaded key and nothing else. */
  lemma LoadOneLookup<S>(u: Unicode, decode: string -> Option<seq<S>>, groups: Groups<S>, name: string, key: ClipKey)
    ensures Lookup(LoadOne(u, decode, groups, name), key)
         == if Loadable(u, decode, name) && MatchClip(u, name).value == key then decode(name) else Lookup(groups, key)
  {
    if Loadable(u, decode, name) {
      var g' := LoadOneStores(u, decode, groups, name);
      StoredLookup(groups, MatchClip(u, name).value, decode(name).value, key);
    }
  }

  /** Storing a clip under one key changes the lookup of that key only. */
  lemma StoredLookup<S>(groups: Groups<S>, k: ClipKey, clip: seq<S>, key: ClipKey)
    ensures var inner := Get(groups, k.index).GetOr([]);
      Lookup(Put(groups, k.index, Put(inner, k.speaker, clip)), key)
        == if k == key then Some(clip) else Lookup(groups, key)
  {
    var inner := Get(groups, k.index).GetOr([]);
    var inner' := Put(inner, k.speaker, clip);
    var g' := Put(groups, k.index, inner');
    if k.index == key.index {
      assert Get(g', key.index) == Some(inner');
      if k.speaker != key.speaker {
        assert Get(inner', key.speaker) == Get(inner, key.speaker);
      }
    } else {
      assert Get(g', key.index) == Get(groups, key.index);
    }
  }

  /** Of several files with one key, the one listed last is kept. */
  lemma LastLoadableWins<S>(u: Unicode, decode: string -> Option<seq<S>>, names: seq<string>, key: ClipKey)
    requires |names| > 0 && Loadable(u, decode, names[|names| - 1])
    requires MatchClip(u, names[|names| - 1]).value == key
    ensures Lookup(LoadAll(u, decode, names), key) == decode(names[|names| - 1])
  {
    LoadLastWriteWins(u, decode, names, key);
  }

  /** The keys of loadable names, in listing order. */
  function LoadedKeys<S>(u: Unicode, decode: string -> Option<seq<S>>, names: seq<string>): seq<ClipKey> {
    if |names| == 0 then []
    else
      var n := names[|names| - 1];
      LoadedKeys(u, decode, names[..|names| - 1]) + (if Loadable(u, decode, n) then [MatchClip(u, n).value] else [])
  }

  function IndicesOf(keys: seq<ClipKey>): seq<nat> {
    seq(|keys|, i requires 0 <= i < |keys| => keys[i].index)
  }

  /** Speakers of the keys with the given index, in order. */
  function SpeakersAt(keys: seq<ClipKey>, index: nat): seq<string> {
    if |keys| == 0 then []
    else
      var last := keys[|keys| - 1];
      SpeakersAt(keys[..|keys| - 1], index) + (if last.index == index then [last.speaker] else [])
  }

  /** The dict's keys are the distinct `xs` in first-appearance order. */
  ghost predicate KeyedBy<K(!new), V>(d: Dict<K, V>, xs: seq<K>) {
    Wf(d) && Keys(d) == Order.Dedupe(xs)
  }

  /** The layout `load_audio_files` produces from the keys it has stored, in order. */
  ghost predicate Arranged<S>(g: Groups<S>, ks: seq<ClipKey>) {
    && KeyedBy(g, IndicesOf(ks))
    && forall index :: index in Keys(g) ==> KeyedBy(Get(g, index).value, SpeakersAt(ks, index))
  }

  /** `d[k] = v` on an insertion-ordered dict appends `k` on first use only. */
  lemma PutKeyedBy<K(!new), V>(d: Dict<K, V>, xs: seq<K>, k: K, v: V)
    requires KeyedBy(d, xs)
    ensures KeyedBy(Put(d, k, v), xs + [k])
  {
    PutKeepsWf(d, k, v);
    assert (xs + [k])[..|xs|] == xs;
  }

  /** Storing one more clip keeps the layout in step with the stored keys. */
  lemma StoreArranged<S>(g: Groups<S>, ks: seq<ClipKey>, key: ClipKey, clip: seq<S>)
    requires Arranged(g, ks)
    ensures Arranged(Put(g, key.index, Put(Get(g, key.index).GetOr([]), key.speaker, clip)), ks + [key])
  {
    var ks' := ks + [key];
    assert ks'[..|ks|] == ks;
    assert IndicesOf(ks') == IndicesOf(ks) + [key.index];
    var inner := Get(g, key.index).GetOr([]);
    StoredGroup(g, ks, key.index);
    PutKeyedBy(inner, SpeakersAt(ks, key.index), key.speaker, clip);
    var inner' := Put(inner, key.speaker, clip);
    PutKeyedBy(g, IndicesOf(ks), key.index, inner');
    var g' := Put(g, key.index, inner');
    forall index | index in Keys(g')
      ensures Get(g', index).Some? && KeyedBy(Get(g', index).value, SpeakersAt(ks', index))
    {
      GroupKeyed(g, ks, key, inner', index);
    }
  }

  /** After storing `key`, each group is keyed by its index's speakers including `key`'s. */
  lemma GroupKeyed<S>(g: Groups<S>, ks: seq<ClipKey>, key: ClipKey, inner: Dict<string, seq<S>>, index: nat)
    requires Arranged(g, ks)
    requires KeyedBy(inner, SpeakersAt(ks, key.index) + [key.speaker])
    requires index in Keys(Put(g, key.index, inner))
    ensures Get(Put(g, key.index, inner), index).Some?
    ensures KeyedBy(Get(Put(g, key.index, inner), index).value, SpeakersAt(ks + [key], index))
  {
    SpeakersAtSnoc(ks, key, index);
    if index != key.index {
      OtherGroupKept(g, key.index, inner, index);
      assert SpeakersAt(ks + [key], index) == SpeakersAt(ks, index);
      assert KeyedBy(Get(g, index).value, SpeakersAt(ks + [key], index));
    } else {
      assert Get(Put(g, key.index, inner), index) == Some(inner);
      assert SpeakersAt(ks + [key], index) == SpeakersAt(ks, key.index) + [key.speaker];
      assert KeyedBy(inner, SpeakersAt(ks + [key], index));
    }
  }

  /** Storing under one index leaves every other group as it was. */
  lemma OtherGroupKept<S>(g: Groups<S>, stored: nat, inner: Dict<string, seq<S>>, index: nat)
    requires index != stored && index in Keys(Put(g, stored, inner))
    ensures Get(Put(g, stored, inner), index) == Get(g, index)
    ensures index in Keys(g)
  {
  }

  /** The group under an index, or the fresh `{}` of the `defaultdict`, is keyed by that index's speakers. */
  lemma StoredGroup<S>(g: Groups<S>, ks: seq<ClipKey>, index: nat)
    requires Arranged(g, ks)
    ensures KeyedBy(Get(g, index).GetOr([]), SpeakersAt(ks, index))
  {
    if index !in Keys(g) {
      SpeakersAtAbsent(ks, index);
    }
  }

  lemma SpeakersAtSnoc(ks: seq<ClipKey>, key: ClipKey, index: nat)
    ensures SpeakersAt(ks + [key], index) == SpeakersAt(ks, index) + (if key.index == index then [key.speaker] else [])
  {
    assert (ks + [key])[..|ks|] == ks;
  }

  lemma {:induction false} SpeakersAtAbsent(ks: seq<ClipKey>, index: nat)
    requires index !in IndicesOf(ks)
    ensures SpeakersAt(ks, index) == []
  {
    if |ks| > 0 {
      var init := ks[..|ks| - 1];
      assert IndicesOf(init) == IndicesOf(ks)[..|ks| - 1];
      assert ks[|ks| - 1].index == IndicesOf(ks)[|ks| - 1];
      SpeakersAtAbsent(init, index);
    }
  }

  /** Group order is first appearance of each line number; within a group,
      speaker order is first appearance of each speaker (dict insertion order). */
  lemma {:induction false} LoadOrder<S>(u: Unicode, decode: string -> Option<seq<S>>, names: seq<string>)
    ensures Arranged(LoadAll(u, decode, names), LoadedKeys(u, decode, names))
  {
    if |names| > 0 {
      var init := names[..|names| - 1];
      var n := names[|names| - 1];
      LoadOrder(u, decode, init);
      LoadArranged(u, decode, LoadAll(u, decode, init), LoadedKeys(u, decode, init), n);
    }
  }

  /** The inductive step of LoadOrder: one loading step stores the key it loads, if any. */
  lemma LoadArranged<S>(u: Unicode, decode: string -> Option<seq<S>>, g: Groups<S>, ks: seq<ClipKey>, name: string)
    requires Arranged(g, ks)
    ensures Arranged(LoadOne(u, decode, g, name), ks + (if Loadable(u, decode, name) then [MatchClip(u, name).value] else []))
  {
    if Loadable(u, decode, name) {
      var key, clip := MatchClip(u, name).value, decode(name).value;
      var g' := LoadOneStores(u, decode, g, name);
      StoreArranged(g, ks, key, clip);
      assert Arranged(g', ks + [key]);
    } else {
      assert ks + [] == ks;
      assert LoadOne(u, decode, g, name) == g;
    }
  }

  /** A loadable name is stored under its key. */
  lemma LoadOneStores<S>(u: Unicode, decode: string -> Option<seq<S>>, g: Groups<S>, name: string) returns (g': Groups<S>)
    requires Loadable(u, decode, name)
    ensures var key := MatchClip(u, name).value;
      && g' == LoadOne(u, decode, g, name)
      && g' == Put(g, key.index, Put(Get(g, key.index).GetOr([]), key.speaker, decode(name).value))
  {
    g' := LoadOne(u, decode, g, name);
  }

  /** A file that is not loadable can be removed from the listing without effect:
      a decode failure or a non-matching name drops that file only. */
  lemma {:induction false} LoadSkipsUnloadable<S>(u: Unicode, decode: string -> Option<seq<S>>,
                                                   before: seq<string>, name: string, after: seq<string>)
    requires !Loadable(u, decode, name)
    ensures LoadAll(u, decode, before + [name] + after) == LoadAll(u, decode, before + after)
  {
    if |after| == 0 {
      assert before + [name] + after == before + [name];
      assert before + after == before;
      LoadAllSnoc(u, decode, before, name);
    } else {
      var init, last := after[..|after| - 1], after[|after| - 1];
      var xi, yi := before + [name] + init, before + init;
      assert before + [name] + after == xi + [last];
      assert before + after == yi + [last];
      LoadSkipsUnloadable(u, decode, before, name, init);
      LoadAllSnoc(u, decode, xi, last);
      LoadAllSnoc(u, decode, yi, last);
    }
  }

  /** Loading one more name is one more step of the loop. */
  lemma LoadAllSnoc<S>(u: Unicode, decode: string -> Option<seq<S>>, names: seq<string>, name: string)
    ensures LoadAll(u, decode, names + [name]) == LoadOne(u, decode, LoadAll(u, decode, names), name)
  {
    assert (names + [name])[..|names|] == names;
  }

  // ---------------------------------------------------------------------------
  // `concatenate_audio`

  /** Joins a group's clips in its insertion order. */
  function JoinClips<S>(clips: seq<seq<S>>): seq<S> {
    if |clips| == 0 then [] else clips[0] + JoinClips(clips[1..])
  }

  /** Joins the groups under the given indices, in that order. */
  function JoinGroups<S>(groups: Groups<S>, indices: seq<nat>): seq<S> {
    if |indices| == 0 then []
    else JoinClips(Values(Get(groups, indices[0]).GetOr([]))) + JoinGroups(groups, indices[1..])
  }

  /** `concatenate_audio`: the groups in ascending line-number order, each group's clips in insertion order. */
  function ConcatenateAudio<S>(groups: Groups<S>): (r: seq<S>)
    ensures |groups| == 0 ==> r == []
  {
    Order.NatLessIsStrictTotalOrder();
    JoinGroups(groups, Order.Sort(Keys(groups), Order.NatLess))
  }

  /** The track is the groups joined in ascending numeric order of their line
      numbers: any ascending enumeration of the indices gives the same track. */
  lemma ConcatenateInNumericOrder<S>(groups: Groups<S>, indices: seq<nat>)
    requires Wf(groups)
    requires Order.StrictlySortedBy(indices, Order.NatLess)
    requires forall k :: k in indices <==> k in Keys(groups)
    ensures ConcatenateAudio(groups) == JoinGroups(groups, indices)
  {
    Order.NatLessIsStrictTotalOrder();
    var sorted := Order.Sort(Keys(groups), Order.NatLess);
    assert Order.NoDuplicates(indices);
    Order.DistinctSameMembers(indices, Keys(groups));
    Order.SortedUnique(sorted, indices, Order.NatLess);
  }

  /** Total length of the clips of one group. */
  function GroupLength<S>(group: Dict<string, seq<S>>): nat {
    |JoinClips(Values(group))|
  }

  /** The sum of a measure over a list. */
  function SumOf<K>(ks: seq<K>, f: K -> nat): nat {
    if |ks| == 0 then 0 else f(ks[0]) + SumOf(ks[1..], f)
  }

  /** Total length of every clip held in the groups, in the dict's own order. */
  function TotalLength<S>(groups: Groups<S>): nat {
    SumOf(Values(groups), (g: Dict<string, seq<S>>) => GroupLength(g))
  }

  /** The output is as long as all loaded clips together. */
  lemma ConcatenateLength<S>(groups: Groups<S>)
    requires Wf(groups)
    ensures |ConcatenateAudio(groups)| == TotalLength(groups)
  {
    Order.NatLessIsStrictTotalOrder();
    var f := (k: nat) => GroupLength(Get(groups, k).GetOr([]));
    var sorted := Order.Sort(Keys(groups), Order.NatLess);
    JoinGroupsLength(groups, sorted, f);
    SumOfPermutation(sorted, Keys(groups), f);
    SumOverKeys(groups, f);
  }

  lemma {:induction false} JoinGroupsLength<S>(groups: Groups<S>, indices: seq<nat>, f: nat -> nat)
    requires forall k :: f(k) == GroupLength(Get(groups, k).GetOr([]))
    ensures |JoinGroups(groups, indices)| == SumOf(indices, f)
  {
    if |indices| > 0 {
      JoinGroupsLength(groups, indices[1..], f);
    }
  }

  lemma {:induction false} SumOverKeys<S>(groups: Groups<S>, f: nat -> nat)
    requires Wf(groups)
    requires forall k :: f(k) == GroupLength(Get(groups, k).GetOr([]))
    ensures SumOf(Keys(groups), f) == TotalLength(groups)
  {
    if |groups| > 0 {
      var rest := groups[1..];
      assert Keys(rest) == Keys(groups)[1..];
      assert Wf(rest);
      forall k | k != groups[0].0 ensures Get(rest, k) == Get(groups, k) {
      }
      var g := (k: nat) => GroupLength(Get(rest, k).GetOr([]));
      assert groups[0].0 !in Keys(rest);
      SumOfAgree(Keys(rest), f, g);
      SumOverKeys(rest, g);
    }
  }

  lemma {:induction false} SumOfAgree<K>(ks: seq<K>, f: K -> nat, g: K -> nat)
    requires forall i :: 0 <= i < |ks| ==> f(ks[i]) == g(ks[i])
    ensures SumOf(ks, f) == SumOf(ks, g)
  {
    if |ks| > 0 {
      SumOfAgree(ks[1..], f, g);
    }
  }

  lemma {:induction false} SumOfAppend<K>(xs: seq<K>, ys: seq<K>, f: K -> nat)
    ensures SumOf(xs + ys, f) == SumOf(xs, f) + SumOf(ys, f)
  {
    if |xs| > 0 {
      assert (xs + ys)[1..] == xs[1..] + ys;
      SumOfAppend(xs[1..], ys, f);
    } else {
      assert xs + ys == ys;
    }
  }

  /** A sum does not depend on the order of its terms. */
  lemma {:induction false} SumOfPermutation<K>(xs: seq<K>, ys: seq<K>, f: K -> nat)
    requires multiset(xs) == multiset(ys)
    ensures SumOf(xs, f) == SumOf(ys, f)
  {
    if |xs| == 0 {
      assert |ys| == |multiset(ys)| == 0;
    } else {
      var j := Order.MatchHead(xs, ys);
      SumOfPermutation(xs[1..], ys[..j] + ys[j + 1..], f);
      SumOfRemove(ys, j, f);
    }
  }

  lemma SumOfRemove<K>(ys: seq<K>, j: nat, f: K -> nat)
    requires j < |ys|
    ensures SumOf(ys, f) == f(ys[j]) + SumOf(ys[..j] + ys[j + 1..], f)
  {
    assert ys == ys[..j] + ys[j..];
    SumOfAppend(ys[..j], ys[j..], f);
    SumOfAppend(ys[..j], ys[j + 1..], f);
    assert ys[j..][1..] == ys[j + 1..];
  }

  // ---------------------------------------------------------------------------
  // `export_final_audio`, without the file write

  /** The track `export_final_audio` writes. */
  function Assemble<S>(u: Unicode, decode: string -> Option<seq<S>>, listing: seq<string>): seq<S> {
    ConcatenateAudio(LoadAudioFiles(u, decode, listing))
  }

  /** The order in which the directory lists its files does not matter. */
  lemma AssembleIgnoresListingOrder<S>(u: Unicode, decode: string -> Option<seq<S>>, xs: seq<string>, ys: seq<string>)
    requires multiset(xs) == multiset(ys)
    ensures Assemble(u, decode, xs) == Assemble(u, decode, ys)
  {
    Order.LessIsStrictTotalOrder();
    Order.SortIgnoresInputOrder(xs, ys, Order.Less);
  }

  /** A file that is not loadable, such as a previous run's `final_output.wav`,
      leaves the assembled track unchanged. */
  lemma AssembleIgnoresUnloadable<S>(u: Unicode, decode: string -> Option<seq<S>>, listing: seq<string>, name: string)
    requires !Loadable(u, decode, name)
    ensures Assemble(u, decode, listing + [name]) == Assemble(u, decode, listing)
  {
    LoadIgnoresUnloadable(u, decode, listing, name);
  }

  /** The groups loaded from a listing do not change when a file that is not
      loadable joins it. */
  lemma LoadIgnoresUnloadable<S>(u: Unicode, decode: string -> Option<seq<S>>, listing: seq<string>, name: string)
    requires !Loadable(u, decode, name)
    ensures LoadAudioFiles(u, decode, listing + [name]) == LoadAudioFiles(u, decode, listing)
  {
    Order.LessIsStrictTotalOrder();
    var sorted := Order.Sort(listing, Order.Less);
    var j := Order.SortSplit(listing, name, Order.Less);
    LoadSkipsUnloadable(u, decode, sorted[..j], name, sorted[j..]);
    assert sorted[..j] + sorted[j..] == sorted;
  }
}
