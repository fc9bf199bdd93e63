# Podcast script-to-track pipeline, modelled in Dafny

Two independently run Python scripts turn a dialogue script into one audio track.
The only thing they share is a filename convention.

* `PodcastScriptProcessor` (audio-podcast-workflow.py) reads a script whose lines look
  like `[Alan]: Hello`. It makes three passes over the whitespace-stripped lines:
  * the sorted set of speaker names;
  * the speaker of every tagged line, in order;
  * the spoken text of each speaker, in order.
  It then walks the speaker order with a per-speaker cursor. For each line it asks a
  text-to-speech provider for `{n}_{speaker.lower()}.wav`, passed through
  `_sanitize_filename`.
* `AudioConcatenator` (cutting-podcast-workflow.py) lists the output directory in sorted
  order and keeps every file whose name starts with `(\d+)_([a-zA-Z]+)\.wav`. It groups
  the decodable files by line number and lowered speaker; a later file overwrites an
  earlier one with the same key. It then joins the groups in ascending numeric order.

Modules:

| module | file | models |
|---|---|---|
| `Options` | options.dfy | `Option`, for Python's `None` and for the KeyError path |
| `Chars` | chars.dfy | `str.strip()` (the exact `isspace` table), `.*` stopping at a newline, `str(n)`, `int(digits)`, and an oracle record `Unicode` for `\w`, `\d`, digit values and `str.lower()` |
| `Order` | order.dfy | Python's `str` `<`, `sorted()` as insertion sort, `sorted(set(...))` |
| `Dicts` | dicts.dfy | insertion-ordered `dict` as an association list; `d[k] = v` keeps an existing key's position |
| `ScriptModel` | script_model.dfy | `_extract_speaker_names`, `_extract_speaker_order`, `_extract_lines_per_speaker` |
| `Synthesis` | synthesis.dfy | `_sanitize_filename` and `generate_audio`, as a fold over the speaker order that emits one report event per entry |
| `Assembly` | assembly.dfy | the filename pattern, `load_audio_files`, `concatenate_audio` |
| `Pipeline` | pipeline.dfy | the filename contract between the two scripts |

Modelling choices:

* `\w`, `\d`, the value `int()` gives a Unicode digit, and `str.lower()` come from the
  oracle record `Chars.Unicode`. The predicate `Chars.AgreesOnAscii` pins down only
  their ASCII behaviour, which every Python 3 shares. Properties that need more than
  that say so in their `requires`.
* The provider is an oracle `Request -> bool` that says whether the call succeeded.
  A failure is recorded in the report and the loop goes on, as the `except` does.
* Decoding is an oracle `string -> Option<seq<S>>`. A clip is a `seq<S>`, and joining
  clips is sequence concatenation.
* Both `KeyError`s the parsing and driver code could raise are modelled:
  * `LinesPerSpeaker` returns `None`;
  * the driver emits a `KeyError` event and halts.
  Both are proved unreachable on parsed scripts.

## Model

| member | source | states |
|---|---|---|
| `Chars.StripSpec` | audio-podcast-workflow.py:51 | `line.strip()` is a slice of the line; everything cut off both ends is whitespace, and the result neither starts nor ends with whitespace |
| `Chars.UpToNewlineSpec` | audio-podcast-workflow.py:60 | the `(.*)` group is the longest newline-free prefix of what follows `]:` |
| `Chars.ShowParses` | cutting-podcast-workflow.py:21 | `int(str(n)) == n` for every line number |
| `Order.LessIsStrictTotalOrder` | audio-podcast-workflow.py:52 | Python's `str` ordering is irreflexive, transitive and total |
| `Order.Sort` | cutting-podcast-workflow.py:18 | `sorted()` returns its input rearranged into ascending order |
| `Order.SortIgnoresInputOrder` | cutting-podcast-workflow.py:18 | `sorted()` gives the same list for any arrangement of the same elements |
| `Order.SortedSet` | audio-podcast-workflow.py:50-52 | `sorted(set(xs))` is strictly ascending and holds exactly the elements of `xs` |
| `Dicts.Put` | cutting-podcast-workflow.py:25 | after `d[k] = v`, `k` maps to `v`, every other key keeps its value, and `k` is appended to the key order only if it was new |
| `ScriptModel.Tag` | audio-podcast-workflow.py:49-51 | a match of `^\[([^\]]+)\]:` means the line is `[name]:rest` with `name` non-empty and free of `]` |
| `ScriptModel.SpeakerNames` | audio-podcast-workflow.py:48-52 | `_extract_speaker_names`: the names are strictly ascending and are exactly the tags of the stripped lines |
| `ScriptModel.SpeakerOrder` | audio-podcast-workflow.py:54-57 | `_extract_speaker_order`: at most one entry per script line; its exact contents are stated by `SpeakerOrderOfTaggedScript` and `SpeakerOrderOfUntaggedScript` |
| `ScriptModel.Parse` | audio-podcast-workflow.py:35-38 | the constructor's three passes: the names come from pass 1, the order from pass 2 over those names, and the lines per speaker from pass 3, which raises no KeyError on its own names |
| `ScriptModel.TagComplete` | audio-podcast-workflow.py:49-51 | every stripped line of the form `[name]:rest` with such a name is matched, capturing `name` and `rest` |
| `ScriptModel.SpeakerNamesSpec` | audio-podcast-workflow.py:48-52 | speaker names are distinct, strictly ascending, and exactly the bracket contents of the tagged lines |
| `ScriptModel.AlternationMatchesTag` | audio-podcast-workflow.py:55-57 | with well-formed names, the alternation of the names matches a line exactly when its tag is one of the names, and captures that tag |
| `ScriptModel.SpeakerOrderOfTaggedScript` | audio-podcast-workflow.py:54-57 | when some line is tagged, the order has one entry per tagged line, in script order, equal to its tag |
| `ScriptModel.SpeakerOrderOfUntaggedScript` | audio-podcast-workflow.py:54-57 | with no tagged line the pattern degenerates to `^\[()\]:`: one `""` entry per stripped line starting with `[]:` |
| `ScriptModel.LinesPerSpeakerSpec` | audio-podcast-workflow.py:59-67 | the pass raises no KeyError exactly when every tag is a name; then each name maps to the stripped texts of its tagged lines, in order |
| `ScriptModel.LinesPerSpeaker` | audio-podcast-workflow.py:59-67 | `_extract_lines_per_speaker`, `None` standing for its KeyError; its contract is `LinesPerSpeakerSpec` |
| `ScriptModel.TextsCount` | audio-podcast-workflow.py:59-67 | a speaker's number of texts equals its number of occurrences among the tags |
| `ScriptModel.ParseConsistent` | audio-podcast-workflow.py:35-38 | a script with a tagged line parses into consistent passes: the lines-per-speaker keys are the names, every order entry is a name, and each name has as many lines as order entries |
| `ScriptModel.ParseLinesCorrespond` | audio-podcast-workflow.py:54-67 | the k-th occurrence of a speaker in the order selects that speaker's k-th text, which is the spoken text of the same tagged line |
| `ScriptModel.ParseUntagged` | audio-podcast-workflow.py:48-67 | a script without tagged lines has no names, no lines, and a `""` order entry per `[]:` line |
| `Synthesis.ClipName` | audio-podcast-workflow.py:94-95 | the requested filename is the sanitized `str(n)+"_"+speaker.lower()+".wav"`; `Pipeline.ClipNamePrefix` and `Pipeline.FilenameRoundTrip` state what the assembler reads from it |
| `Synthesis.SanitizeSpec` | audio-podcast-workflow.py:121-123 | sanitizing keeps the length, keeps `\w`, `-`, `_` and `.`, and replaces every other character with `_` |
| `Synthesis.SanitizeFixedPoints` | audio-podcast-workflow.py:121-123 | a name is unchanged by sanitizing exactly when all its characters are allowed |
| `Synthesis.SanitizeIdempotent` | audio-podcast-workflow.py:121-123 | sanitizing twice is sanitizing once |
| `Synthesis.StepSpec` | audio-podcast-workflow.py:75-100 | one loop iteration appends exactly one event; a speaker without a voice is skipped; a voiced speaker whose cursor is at or past its line count is skipped by the bounds check; otherwise it is requested exactly when the tracker holds its cursor, and raises a KeyError that halts the loop exactly when it does not; only a request advances the cursor, by one; the request carries the sanitized filename, the voice and the cursor's line; a provider failure does not stop the loop |
| `Synthesis.Step` | audio-podcast-workflow.py:77-100 | one iteration of the `generate_audio` loop; its contract is `StepSpec` |
| `Synthesis.GenerateAudio` | audio-podcast-workflow.py:69-100 | `generate_audio`: one event per entry of the speaker order, unless a KeyError halts the loop, and then on its last event |
| `Synthesis.RunReport` | audio-podcast-workflow.py:75-81 | the report numbers entries from 1 in order, and an entry is skipped for want of a voice exactly when its speaker's voice is missing or empty |
| `Synthesis.RunCursor` | audio-podcast-workflow.py:73-92 | the cursor keys stay the speaker names, each cursor counts the requests made for its speaker, and no cursor exceeds its speaker's line count |
| `Synthesis.RunExtends` | audio-podcast-workflow.py:75 | the report of a longer prefix of the order extends that of a shorter one |
| `Synthesis.RunConsistent` | audio-podcast-workflow.py:83-92 | on consistent passes the bounds check never fires and no KeyError arises; a voiced speaker's cursor is its number of occurrences so far |
| `Synthesis.RunWithoutLines` | audio-podcast-workflow.py:77-89 | when no speaker in the order has lines, every entry is skipped, by the voice check or the bounds check |
| `Synthesis.RequestContents` | audio-podcast-workflow.py:75-97 | on consistent passes, entry i is requested exactly when its speaker has a voice; the request holds the speaker's k-th line (k = earlier occurrences), the filename `sanitize(str(i+1)+"_"+lower+".wav")` and the voice |
| `Synthesis.RunFilenames` | audio-podcast-workflow.py:75-95 | every requested entry's clip is named after that entry's own line number and speaker |
| `Pipeline.ClipNamePrefix` | cutting-podcast-workflow.py:12-21 | for an ASCII-agreeing character table, the leading digit run of the clip name for line n is exactly `str(n)`, and its value, as the assembler reads it, is n |
| `Pipeline.RequestPrefixesIncrease` | audio-podcast-workflow.py:75-95 | the leading number of the i-th request's filename is i+1, so these numbers strictly increase along the report |
| `Pipeline.ParsedLineRequested` | audio-podcast-workflow.py:35-97 | end to end on a parsed script: the i-th tagged line is requested exactly when its speaker has a voice, and then with that line's own spoken text, under the clip name for line i+1 |
| `Synthesis.ProviderOutcomeIrrelevant` | audio-podcast-workflow.py:92-100 | changing the provider's answers changes only the success flags: the same entries are requested and the cursors end the same |
| `Assembly.MatchClip` | cutting-podcast-workflow.py:12-21 | the clip pattern with `re.match` and the key `(int(digits), letters.lower())`; its contract is `MatchClipSound` together with `MatchClipComplete` |
| `Assembly.MatchClipSound` | cutting-podcast-workflow.py:12-21 | an accepted name starts with `\d` digits, `_`, ASCII letters and `.wav`, and is keyed by those digits' value and the lowered letters |
| `Assembly.MatchClipComplete` | cutting-podcast-workflow.py:12-21 | every name starting that way is accepted with that key, whatever follows `.wav` |
| `Assembly.NonDigitStartRejected` | cutting-podcast-workflow.py:19 | a name not starting with a `\d` character is never grouped |
| `Assembly.FinalOutputRejected` | cutting-podcast-workflow.py:39 | the default output `final_output.wav` is never grouped |
| `Assembly.LoadAudioFiles` | cutting-podcast-workflow.py:16-28 | `load_audio_files` over the sorted listing; its contract is `LoadLastWriteWins` together with `LoadOrder` |
| `Assembly.LoadLastWriteWins` | cutting-podcast-workflow.py:18-28 | after loading, each key holds the clip of the last file in the listing with that key that decodes; no other key holds anything |
| `Assembly.LoadOneLookup` | cutting-podcast-workflow.py:19-28 | one loop iteration replaces the clip under the key it loads, if it loads one, and leaves every other lookup as it was |
| `Assembly.LastLoadableWins` | cutting-podcast-workflow.py:25 | the last decodable file of a key overwrites the earlier ones |
| `Assembly.LoadOrder` | cutting-podcast-workflow.py:13-25 | the groups are ordered by first appearance of each line number, and each group's speakers by first appearance |
| `Assembly.LoadSkipsUnloadable` | cutting-podcast-workflow.py:19-28 | a file that does not match or does not decode can be removed from anywhere in the listing without changing the groups |
| `Assembly.FirstLoadIsFresh` | cutting-podcast-workflow.py:13-18 | on a fresh object, whose `audio_groups` is empty, `load_audio_files` continuing from the held groups is exactly `LoadAudioFiles` |
| `Assembly.LoadFromLookup` | cutting-podcast-workflow.py:13-25 | continuing from held groups, a key ends with the clip of its last decodable file in the new listing, and when there is none, with whatever it held before |
| `Assembly.ReloadKeepsStale` | cutting-podcast-workflow.py:13-25 | a second `load_audio_files` on the same object leaves every key that no loadable file of the new listing has as it was, so clips of files since removed survive |
| `Assembly.ConcatenateAudio` | cutting-podcast-workflow.py:30-37 | no groups give an empty track |
| `Assembly.ConcatenateInNumericOrder` | cutting-podcast-workflow.py:33-35 | the track joins the groups along any strictly ascending numeric enumeration of the line numbers, each group's clips in insertion order |
| `Assembly.ConcatenateLength` | cutting-podcast-workflow.py:32-35 | the track is as long as all loaded clips together |
| `Assembly.SumOfPermutation` | cutting-podcast-workflow.py:33 | a total does not depend on the order of its terms |
| `Assembly.Assemble` | cutting-podcast-workflow.py:39-41 | the track `export_final_audio` writes: loading, then concatenation; `AssembleIgnoresListingOrder` and `AssembleIgnoresUnloadable` state its properties |
| `Assembly.AssembleIgnoresListingOrder` | cutting-podcast-workflow.py:18 | the order in which the directory lists its files does not change the track |
| `Assembly.AssembleIgnoresUnloadable` | cutting-podcast-workflow.py:39-41 | adding a file that does not load, such as a previous run's output, does not change the track |
| `Pipeline.SanitizeAppend` | audio-podcast-workflow.py:123 | sanitizing works character by character, so it splits over concatenation |
| `Pipeline.FilenameRoundTrip` | cutting-podcast-workflow.py:12-21 | for a non-empty ASCII-letter speaker, the clip for line n is named `str(n)+"_"+lower+".wav"` and is accepted with key `(n, lower)` |
| `Pipeline.MatchedSpeakerIsLowerLetters` | cutting-podcast-workflow.py:21 | an accepted name's speaker key is non-empty lower-case ASCII letters |
| `Pipeline.NonLetterSpeakerRejected` | cutting-podcast-workflow.py:12-20 | when the lowered speaker holds a non-letter and no `.`, the assembler rejects its clips |
| `Pipeline.DottedSpeakerAccepted` | cutting-podcast-workflow.py:12-21 | a speaker `Al.wav` gets the clip `1_al.wav.wav`, which is accepted under the key `(1, "al")` |
| `Pipeline.LeadingZerosShareKey` | cutting-podcast-workflow.py:18-25 | `01_alan.wav` and `1_alan.wav` share a key, and only `1_alan.wav`, later in sorted order, survives |
| `Pipeline.NumericNotLexicographic` | cutting-podcast-workflow.py:18-35 | `sorted()` lists `10_a.wav` before `2_b.wav`, yet the track plays line 2's clip before line 10's, because the groups are joined in numeric order |
| `Pipeline.UntaggedScriptRequestsNothing` | audio-podcast-workflow.py:77-89 | a script without tagged lines requests nothing: each `""` entry is skipped by the voice check or the bounds check |

## Left out

- Reading the script file and its `FileNotFoundError` path (audio-podcast-workflow.py:40-46): the model takes the list of lines as input.
- The Groq client, API-key checks, `mkdir` and writing the clip (audio-podcast-workflow.py:25-33, 104-113): these are external I/O. The provider is an oracle that answers success or failure per request.
- The link between the files written and the directory the assembler lists: the listing is a parameter, because the file system is outside the model.
- pydub decoding, `AudioSegment` internals and WAV export (cutting-podcast-workflow.py:24, 43-44): foreign library code. Decoding is an oracle, and a clip is a sequence.
- Logging, `print`, `summary()` and the class-level `logging.info` at audio-podcast-workflow.py:102: output only.
- `argparse`/`main` and the hard-coded voice map: no logic beyond wiring.
- The unused `speaker_order` constructor argument (cutting-podcast-workflow.py:9, 11): it is never read.
- research-notes.py and script-podcast-workflow.py are not part of this model. They are network, LLM and file code.
- The Unicode tables behind `\w`, `\d`, `int()` and `str.lower()`: only their ASCII behaviour is fixed, through `Chars.AgreesOnAscii`. `str.isspace()` is modelled exactly.
- Voice-map values other than strings: a missing key is read as the falsy `""`. Other falsy or non-string values are not modelled.
- Exceptions other than the two `KeyError`s, such as `MemoryError`: not modelled. A provider exception is the oracle's failure answer.
- `lines_per_speaker` is modelled as a `map`: the code only reads it by key, so its insertion order never matters.
- Assembly.LoadAudioFiles: models the first call on a fresh `AudioConcatenator`, as `main` uses it, and so does `Assembly.Assemble`. `audio_groups` is never cleared, so a later call on the same object is `Assembly.ReloadAudioFiles`, which keeps the earlier groups (`Assembly.ReloadKeepsStale`).
- Pipeline.NonLetterSpeakerRejected: requires the lowered speaker to contain no `.`. A lowered speaker with a non-letter and no `.` gets a clip name the assembler rejects; with a `.`, the name may still be accepted, under a different key (`Pipeline.DottedSpeakerAccepted`).
- Three behaviours of the code that the model keeps as they are:
  - `_sanitize_filename` keeps every Unicode `\w` character, not only `[A-Za-z0-9_.-]`; the Unicode table is a parameter (`Synthesis.SanitizeSpec`).
  - `re.match` anchors the clip pattern only at the start, so `1_alan.wav.bak` is accepted under the key `(1, "alan")` (`Assembly.MatchClipComplete`).
  - A lowered speaker with a non-letter and no `.` gets a clip name the assembler rejects (`Pipeline.NonLetterSpeakerRejected`); with a `.`, the name may still be accepted, under a different key (`Pipeline.DottedSpeakerAccepted`).
