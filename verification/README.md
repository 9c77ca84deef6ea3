# supcom_profiler_converter: profiler log parsing and call-tree aggregation

This project models the core of supcom_profiler_converter in Dafny. The tool
reads the log that the LOUD mod of Supreme Commander: Forged Alliance writes
and turns its profiler lines into a call tree for flame graphs. The model has
two parts.

- **Log parsing** (`core/loud_log.py`, module `LoudLog`):
  - `Func.identifier` builds a frame's display key.
  - `_find_shared_path` infers the path separator and the installation
    prefix from the whole log. It is a method of the class
    `LoudLog.LoudLog`, which updates the fields `sep` and `prefix`.
  - `_parse_func` and `_parse_stacktrace` turn a `source,lineno,name,return_line;…;count,duration`
    line into a `CallStack`. These are functions whose errors are `Result` failures.
  - `parse` keeps the lines that start with `info: prof: `, strips them and
    parses them in order. It is a method with a loop.
- **Tree aggregation** (`core/process.py`, module `Process` and the property
  modules `ProcessProps`, `ProcessFrame`, `ProcessHistory`, `ProcessRoots`,
  `ProcessSlots`, `SelfDurations`):
  - `process` and `_add` fold the call stacks into a forest. Each node holds
    a two-level dict: call-site key (the parent frame's `identifier(True)`)
    → callee key (`identifier(False)`) → child.
  - `Function.self_duration` subtracts the totals of the direct children.

Python's nodes are objects that point at each other. The model keeps them in
an arena (`Process.Arena`, a class whose fields `nodes` and `roots` the
methods update). A node is named by its position in the arena, and the dicts
hold positions. Python mutates the designated dict through an alias. The
model instead writes that dict back where it was found (`Process.Store`).
Each method is proved equal to a specification function on the arena's value
(`Locate`, `AddStep`, `WalkFrom`, `ProcessAll`). The properties are proved
about those functions.

Python's insertion-ordered `dict` is `Dicts.Dict`, a sequence of key/value
pairs. `d.get` is `Get` and `d[k] = v` is `Put`. The string built-ins the
source uses are written out in `PyStr`: `split`, `rstrip`, `removeprefix`,
`find`, `rfind` with Python's index clipping, slicing, `replace` of every
occurrence, and `int()`, which strips `str.isspace` whitespace and then
accepts an optional sign and ASCII digits.
`Results.Traverse` stands for a list comprehension or loop that stops at the
first exception.

Behaviour of the source worth noting:

- A node's `total_duration` is assigned by each stack that ends at it
  (process.py:95-96), so it holds the duration of the last such stack and
  can go down. `ProcessHistory.TotalIsLastWriter` proves this, and
  `SelfDurations.NegativeSelfDuration` shows a total that went down.
- `self_duration` subtracts the totals of the node's direct children, in
  every call-site bucket (process.py:24-26).
- The call-site key of a child is the parent frame's `identifier(True)`,
  built from the parent frame's own `return_line` (process.py:76). For the
  input `A,1,main,0;B,5,helper,10;3,0.006` the bucket key is `A:1(main)->0`.
- The normalised source keeps whatever follows the prefix, including a
  leading `/` (loud_log.py:74).
- `replace(prefix, "")` deletes every occurrence of the prefix wherever it
  stands in the source field (loud_log.py:74).
- An existing but empty bucket is falsy in Python and is replaced by a new
  empty dict (process.py:80-82). The model reads a missing bucket and an
  empty bucket both as the empty dict.

## Model

| member | source | states |
|---|---|---|
| Results.TraverseValues | supcom_profiler_converter/core/loud_log.py:60 | a list comprehension that raised nothing holds one result per element, each that element's result, in order |
| Results.Traverse | supcom_profiler_converter/core/loud_log.py:60 | no contract of its own; TraverseValues, TraverseSucceeds, TraverseFirstFailure, TraverseSnoc and TraverseFailureAbsorbs state what the comprehension that stops at the first exception gives |
| Results.TraverseSucceeds | supcom_profiler_converter/core/loud_log.py:60 | when every element succeeds, the whole comprehension succeeds |
| Results.TraverseFirstFailure | supcom_profiler_converter/core/loud_log.py:60 | a failed comprehension carries the error of its first failing element, and every element before that one succeeded |
| Results.TraverseSnoc | supcom_profiler_converter/core/loud_log.py:48-49 | after a success, one more element either appends its value or ends everything with its own error |
| Results.TraverseFailureAbsorbs | supcom_profiler_converter/core/loud_log.py:48-49 | once an exception is raised, later elements are never looked at |
| PyStr.RStripSpec | supcom_profiler_converter/core/loud_log.py:47 | `rstrip` gives a prefix of the string that does not end in whitespace, and everything it removed is whitespace |
| PyStr.RStrip | supcom_profiler_converter/core/loud_log.py:47 | no contract of its own; RStripSpec states it |
| PyStr.LStrip | supcom_profiler_converter/core/loud_log.py:63 | no contract of its own; LStripSpec states it (the leading strip inside `int()`) |
| PyStr.LStripSpec | supcom_profiler_converter/core/loud_log.py:47 | the mirror image: `lstrip` gives a suffix that does not start with whitespace, and everything removed is whitespace |
| PyStr.RemovePrefix | supcom_profiler_converter/core/loud_log.py:47 | `removeprefix` gives the rest after the prefix when the string starts with it, and the string unchanged otherwise |
| PyStr.Split | supcom_profiler_converter/core/loud_log.py:54 | `split` gives at least one part, no part contains the separator, and there is exactly one part iff the separator is absent |
| PyStr.SplitJoins | supcom_profiler_converter/core/loud_log.py:54 | joining the parts of a split with the separator gives back the string |
| PyStr.SplitIsUnique | supcom_profiler_converter/core/loud_log.py:54 | separator-free parts that join to a string are exactly that string's split |
| PyStr.SplitCons | supcom_profiler_converter/core/loud_log.py:54 | splitting `a + sep + b`, where `a` has no separator, gives `a` followed by the split of `b` |
| PyStr.JoinHasSeparator | supcom_profiler_converter/core/loud_log.py:54 | two or more joined parts contain the separator |
| PyStr.Join | supcom_profiler_converter/core/loud_log.py:54 | no contract of its own; SplitJoins and SplitIsUnique state it as the inverse of `split`, JoinHasSeparator that the separator shows |
| PyStr.FindFrom | supcom_profiler_converter/core/loud_log.py:92 | the search from a position gives the first occurrence at or after it, or -1 when there is none |
| PyStr.Find | supcom_profiler_converter/core/loud_log.py:92-96 | `find` is -1 iff the pattern never occurs; otherwise the pattern occurs there and nowhere earlier |
| PyStr.ClipIndex | supcom_profiler_converter/core/loud_log.py:103-104 | a slice bound is clipped into the string, and a bound already inside is kept |
| PyStr.LastIndexIn | supcom_profiler_converter/core/loud_log.py:103-104 | the last position of a character in a range, or -1 when it does not occur there |
| PyStr.RFind | supcom_profiler_converter/core/loud_log.py:103-104 | `rfind(c, start, end)` gives the last `c` inside the clipped range, or -1 when the range has none |
| PyStr.RFindFindsLast | supcom_profiler_converter/core/loud_log.py:103-104 | a position that is the last `c` of the range is what `rfind` returns |
| PyStr.Slice | supcom_profiler_converter/core/loud_log.py:105 | a slice with in-range bounds is the substring between them |
| PyStr.ReplaceCharPointwise | supcom_profiler_converter/core/loud_log.py:74 | replacing a character by a character keeps the length and changes exactly the positions that held it |
| PyStr.Replace | supcom_profiler_converter/core/loud_log.py:74 | no contract of its own; ReplaceLeading, ReplaceCharPointwise, ReplaceCharRemovesIt, ReplaceAbsent, ReplaceEmptyByEmpty and ReplaceCharAbsent state it |
| PyStr.ReplaceLeading | supcom_profiler_converter/core/loud_log.py:74 | a string that starts with a non-empty pattern has that occurrence replaced, and the rest is replaced on its own |
| PyStr.ReplaceCharRemovesIt | supcom_profiler_converter/core/loud_log.py:74 | after such a replacement, the replaced character no longer occurs |
| PyStr.ReplaceAbsent | supcom_profiler_converter/core/loud_log.py:74 | replacing a non-empty pattern that never occurs changes nothing |
| PyStr.ReplaceEmptyByEmpty | supcom_profiler_converter/core/loud_log.py:74 | `replace("", "")` is the identity, which matters when the inferred prefix is empty |
| PyStr.ReplaceCharAbsent | supcom_profiler_converter/core/loud_log.py:74 | replacing an absent character changes nothing |
| PyStr.AllDigitsAt | supcom_profiler_converter/core/loud_log.py:75 | each character of a digit string is a digit |
| PyStr.IntToStr | supcom_profiler_converter/core/loud_log.py:15-19 | an integer formatted by an f-string is never empty |
| PyStr.DigitsOfNatToStr | supcom_profiler_converter/core/loud_log.py:15-19 | a formatted natural number is all digits, and reading the digits back gives the number |
| PyStr.ParseIntOfIntToStr | supcom_profiler_converter/core/loud_log.py:75 | `int()` of a formatted integer gives that integer back |
| PyStr.ParseInt | supcom_profiler_converter/core/loud_log.py:63-75 | no contract of its own; ParseIntOfIntToStr states that it inverts the formatting of an integer |
| PyStr.IntToStrIsPlain | supcom_profiler_converter/core/loud_log.py:73-75 | a formatted integer contains neither `,` nor `;`, nor any other non-digit other than `-` |
| Dicts.Keys | supcom_profiler_converter/core/process.py:32-37 | the keys of a dict, one per entry, in insertion order |
| Dicts.Values | supcom_profiler_converter/core/process.py:39 | `d.values()` gives one value per entry, in insertion order |
| Dicts.IndexOf | supcom_profiler_converter/core/process.py:79-86 | a key's position, or -1; a position it gives holds the key |
| Dicts.IndexOfSpec | supcom_profiler_converter/core/process.py:79-86 | the position is the first that holds the key, and it is -1 iff no entry holds the key |
| Dicts.Get | supcom_profiler_converter/core/process.py:79-86 | `d.get(k)` is `None` iff `k` is not a key |
| Dicts.Put | supcom_profiler_converter/core/process.py:82-93 | `d[k] = v`: afterwards `k` gives `v` and every other key gives what it gave before; a new key is appended at the end; an existing key keeps its place; unique keys stay unique |
| Dicts.IndexOfAppend | supcom_profiler_converter/core/process.py:82-93 | appending an entry leaves the positions of the keys already present unchanged |
| Dicts.IndexOfAway | supcom_profiler_converter/core/process.py:93 | overwriting one entry's value moves no other key |
| Dicts.GetInExtension | supcom_profiler_converter/core/process.py:82-93 | a key that is found keeps its value when entries are appended |
| Dicts.GetAt | supcom_profiler_converter/core/process.py:39 | with unique keys, the entry at each position is what `get` finds for its key |
| Dicts.GetFound | supcom_profiler_converter/core/process.py:86 | what `get` finds is stored at some position of the dict |
| LoudLog.NativeIdentifierIsName | supcom_profiler_converter/core/loud_log.py:12-13 | a frame whose source is `=[C]` is identified by its name alone, whether or not the return line is asked for |
| LoudLog.Identifier | supcom_profiler_converter/core/loud_log.py:11-20 | no contract of its own; NativeIdentifierIsName, CallSiteKeyExtendsCalleeKey, LocatedIdentifier and CalleeKeyIgnoresReturnLine state it |
| LoudLog.CallSiteKeyExtendsCalleeKey | supcom_profiler_converter/core/loud_log.py:11-20 | a frame's call-site key is its callee key, followed for a non-native frame by `->` and the return line |
| LoudLog.LocatedIdentifier | supcom_profiler_converter/core/loud_log.py:15-17 | a non-native callee key is `source:lineno`, followed by `(name)` exactly when the name is not empty |
| LoudLog.CalleeKeyIgnoresReturnLine | supcom_profiler_converter/core/loud_log.py:11-20 | frames that differ only in their return line have the same callee key |
| LoudLog.NormaliseSource | supcom_profiler_converter/core/loud_log.py:74 | after normalisation, a separator other than `/` no longer occurs in the source; StripsLeadingPrefix states that an installation prefix it starts with is deleted |
| LoudLog.StripsLeadingPrefix | supcom_profiler_converter/core/loud_log.py:74 | a source that starts with the installation prefix and holds it nowhere else becomes the rest, of the same length, with each separator turned into `/` and every other character kept |
| LoudLog.ParseFuncSpec | supcom_profiler_converter/core/loud_log.py:72-75 | a frame parses iff it has at least four `,`-fields whose second and fourth are integers; the frame then holds the normalised first field, the two integers and the third field; with `\` as separator its source has no `\`; a failure is an `int()` error or a missing field |
| LoudLog.ParseFunc | supcom_profiler_converter/core/loud_log.py:72-75 | no contract of its own; ParseFuncSpec and ParseFuncOfRenderFunc state it |
| LoudLog.FrameFailure | supcom_profiler_converter/core/loud_log.py:60 | a frame list fails only with one frame's `int()` error or missing field |
| LoudLog.FrameValues | supcom_profiler_converter/core/loud_log.py:60 | a parsed frame list has one frame per field, in order, each that field's parse |
| LoudLog.ParseStacktrace | supcom_profiler_converter/core/loud_log.py:53-70 | the line is rejected as an invalid profiler result iff it has no `;`; on success there is one frame per `;`-field but the last (at least one), in order, and the count and duration are the integer and the float of the last field's first two `,`-fields |
| LoudLog.ParseStacktraceSucceeds | supcom_profiler_converter/core/loud_log.py:53-70 | a line parses iff it has a `;`, every frame parses, and its last field holds an integer count and a duration `float()` accepts |
| LoudLog.NormalisePlainSource | supcom_profiler_converter/core/loud_log.py:74 | a source that holds neither the prefix nor the separator is left unchanged by normalisation |
| LoudLog.ParseFuncOfRenderFunc | supcom_profiler_converter/core/loud_log.py:72-75 | parsing a rendered frame whose source and name have no field separators, and whose source has neither prefix nor separator, gives the frame back |
| LoudLog.RenderedFields | supcom_profiler_converter/core/loud_log.py:58-59 | a rendered stack has one field per frame plus the metrics field |
| LoudLog.SplitRenderStack | supcom_profiler_converter/core/loud_log.py:54 | splitting a rendered stack on `;` gives back its fields, and the rendering contains a `;` |
| LoudLog.ParseRenderedFrames | supcom_profiler_converter/core/loud_log.py:58-60 | the rendered frames of a stack of plain frames parse back to its frames |
| LoudLog.ParseStacktraceOfRenderStack | supcom_profiler_converter/core/loud_log.py:53-70 | parsing a rendered stack of plain frames gives the stack back, provided the duration survives its own round trip |
| LoudLog.CleanLine | supcom_profiler_converter/core/loud_log.py:47 | the cleaned text is what follows `info: prof: ` up to trailing whitespace, it does not end in whitespace, and everything dropped after it is whitespace |
| LoudLog.ProfLinesAppend | supcom_profiler_converter/core/loud_log.py:45-47 | the line filter keeps input order: it distributes over concatenation |
| LoudLog.ProfLines | supcom_profiler_converter/core/loud_log.py:45-47 | no contract of its own; ProfLinesAppend, ProfLinesOfOne and ProfLinesStep state which lines it keeps |
| LoudLog.ProfLinesOfOne | supcom_profiler_converter/core/loud_log.py:46-47 | one line contributes its cleaned text exactly when it starts with the marker, and nothing otherwise |
| LoudLog.ProfLinesStep | supcom_profiler_converter/core/loud_log.py:45-47 | the filter over one more line adds that line's text exactly when it has the marker |
| LoudLog.ParseLinesSnoc | supcom_profiler_converter/core/loud_log.py:48-49 | one more text either appends its call stack or ends the parse with its error |
| LoudLog.ParseLines | supcom_profiler_converter/core/loud_log.py:48-49 | no contract of its own; ParseLinesSnoc, ParseLinesStopsAtFailure, ParseLinesSkip, ParseLinesAppend and ParseLinesFail state it, and ParseProfilerLines is proved equal to it |
| LoudLog.ParsedStacksHaveFrames | supcom_profiler_converter/core/loud_log.py:54-60 | a successful parse has one call stack per text, and each has at least one frame |
| LoudLog.ParseLinesStopsAtFailure | supcom_profiler_converter/core/loud_log.py:48 | once a profiler line fails, the lines after it do not change the result |
| LoudLog.ParseLinesSkip | supcom_profiler_converter/core/loud_log.py:46 | a line without the marker leaves the parsed stacks as they were |
| LoudLog.ParseLinesAppend | supcom_profiler_converter/core/loud_log.py:46-49 | a profiler line that parses appends its call stack |
| LoudLog.ParseLinesFail | supcom_profiler_converter/core/loud_log.py:48 | a profiler line that fails ends the parse with its error |
| LoudLog.ParseProfilerLines | supcom_profiler_converter/core/loud_log.py:38-51 | the loop's result is the in-order parse of the cleaned profiler lines, stopping at the first error |
| LoudLog.LoudLog.constructor | supcom_profiler_converter/core/loud_log.py:32-35 | a new reader has neither separator nor prefix |
| LoudLog.LoudLog.FindSharedPath | supcom_profiler_converter/core/loud_log.py:92-105 | a backslash sentinel anywhere selects `\` (even if the slash sentinel also occurs), otherwise a slash sentinel selects `/`; with neither, and no separator set before, it fails with the installation-path error and changes nothing; when both look-backs succeed the prefix is `data[a:p]`, `p` the last separator in the 100 characters before the sentinel and `a` the last `@` in the 1000 before `p`; with a separator kept from an earlier call and no sentinel, the same holds with `p` the last separator in `data[0:-1]` |
| LoudLog.LoudLog.Parse | supcom_profiler_converter/core/loud_log.py:37-51 | the separator and prefix are inferred first; without a sentinel, and with no separator from an earlier call, the result is the installation-path error; otherwise it is the in-order parse of the profiler lines with that separator and prefix; the lines are required to be the file's lines, each keeping its line feed, that concatenate to the text searched |
| Process.Created | supcom_profiler_converter/core/process.py:88-92 | a created node has total 0.0 and no children |
| Process.IdentifierOfCreated | supcom_profiler_converter/core/process.py:13-20 | a node's `identifier()` is the callee key `identifier(False)` of the frame that created it |
| Process.Identifier | supcom_profiler_converter/core/process.py:13-20 | no contract of its own; IdentifierOfCreated states that a node's key is its creating frame's callee key |
| Process.BucketOkKept | supcom_profiler_converter/core/process.py:86-93 | a dict of nodes stays well keyed when the arena keeps every node's name |
| Process.SetTotal | supcom_profiler_converter/core/process.py:95-96 | overwriting a total keeps the arena's size |
| Process.Locate | supcom_profiler_converter/core/process.py:84-93 | the node found or created is in the arena |
| Process.AddStep | supcom_profiler_converter/core/process.py:42-98 | the node `_add` returns is in the arena |
| Process.BucketGet | supcom_profiler_converter/core/process.py:86 | a node found in a dict of nodes is in the arena, after the dict's owner, and carries the key it is filed under |
| Process.DesignatedOk | supcom_profiler_converter/core/process.py:71-82 | the designated dict is always a well-keyed dict of nodes |
| Process.CalleeKey | supcom_profiler_converter/core/process.py:84 | no contract of its own; ProcessProps.LocateFiles states that the frame is filed under it |
| Process.CallSiteKey | supcom_profiler_converter/core/process.py:76 | no contract of its own; ProcessProps.LocateFiles and ProcessSlots.StoredChild state that the bucket is chosen by it |
| Process.Designated | supcom_profiler_converter/core/process.py:71-83 | no contract of its own; DesignatedOk, ProcessSlots.DesignatedLookup and Arena.FindDesignated state it |
| Process.Store | supcom_profiler_converter/core/process.py:79-93 | no contract of its own; StoreKeepsWellFormed, ProcessFrame.StoreNodes, ProcessProps.StoreExtends and ProcessSlots.StoredChild state it |
| Process.WalkFrom | supcom_profiler_converter/core/process.py:35-37 | walking the rest of a stack keeps the forest well formed and ends at a node in the arena |
| Process.AddStack | supcom_profiler_converter/core/process.py:35-37 | folding in one stack keeps the forest well formed |
| Process.Terminal | supcom_profiler_converter/core/process.py:35-37 | the node a stack's last frame reaches is in the arena |
| Process.ProcessAll | supcom_profiler_converter/core/process.py:31-37 | the forest `process` builds is well formed: every dict has unique keys, every node is filed under its own identifier, no bucket is empty, and children come after their parent |
| Process.AppendKeepsWellFormed | supcom_profiler_converter/core/process.py:88-92 | appending a new childless node keeps the forest well formed |
| Process.SetTotalKeepsWellFormed | supcom_profiler_converter/core/process.py:95-96 | overwriting a total keeps the forest well formed |
| Process.PutKeepsBucketOk | supcom_profiler_converter/core/process.py:93 | filing a node under its own identifier keeps a dict of nodes well keyed |
| Process.StoreKeepsWellFormed | supcom_profiler_converter/core/process.py:80-93 | writing a non-empty, well-keyed designated dict back keeps the forest well formed |
| Process.LocateWellFormed | supcom_profiler_converter/core/process.py:71-93 | looking up or creating the node keeps the forest well formed |
| Process.AddStepWellFormed | supcom_profiler_converter/core/process.py:42-98 | `_add` keeps the forest well formed |
| Process.ChildrenInArena | supcom_profiler_converter/core/process.py:24-25 | every child in every bucket of a node is in the arena |
| Process.Arena.constructor | supcom_profiler_converter/core/process.py:32 | `functions = {}`: an empty, well-formed arena |
| Process.Arena.FindDesignated | supcom_profiler_converter/core/process.py:71-82 | gives the roots for frame 0, otherwise the parent's bucket for the call-site key, and an empty dict when that bucket is missing or empty |
| Process.Arena.Add | supcom_profiler_converter/core/process.py:42-98 | the new arena and the returned node are those of `AddStep`, and the arena stays well formed |
| Process.Arena.SelfDuration | supcom_profiler_converter/core/process.py:22-28 | the result is the node's total less the totals of all its children in all buckets (unclamped); for a node with no children it is the total |
| Process.Arena.AddCallStack | supcom_profiler_converter/core/process.py:35-37 | one iteration of the outer loop: the arena and node are those of walking the whole stack |
| Process.Process | supcom_profiler_converter/core/process.py:31-39 | the arena is the fold of all stacks in order, and the returned list is the roots' values in insertion order |
| ProcessProps.FollowExtends | supcom_profiler_converter/core/process.py:79-93 | a path found in a forest leads to the same node in every extension of it |
| ProcessProps.LocateFiles | supcom_profiler_converter/core/process.py:79-93 | the node returned is filed under the frame's callee key, among the roots for frame 0 and otherwise in the parent's bucket for the call-site key |
| ProcessProps.AppendExtends | supcom_profiler_converter/core/process.py:88-92 | creating a node keeps every root, child and name |
| ProcessProps.StoreExtends | supcom_profiler_converter/core/process.py:80-93 | filing a new key in the designated dict and writing it back keeps every root, child and name |
| ProcessProps.LocateExtends | supcom_profiler_converter/core/process.py:79-93 | `_add` only adds: no bucket and no node found under a key is ever replaced |
| ProcessProps.SetTotalExtends | supcom_profiler_converter/core/process.py:95-96 | overwriting a total keeps every root, child and name |
| ProcessProps.AddStepExtends | supcom_profiler_converter/core/process.py:42-98 | one whole `_add` keeps every root, child and name |
| ProcessProps.AddStepFiles | supcom_profiler_converter/core/process.py:42-98 | after one whole `_add`, the returned node is filed where it was looked up |
| ProcessProps.WalkFromFollows | supcom_profiler_converter/core/process.py:36-37 | the rest of a walk only extends the forest, and the stack's keys lead to the node it ends at |
| ProcessProps.AddStackFollows | supcom_profiler_converter/core/process.py:34-37 | folding in a stack keeps everything, and the stack's keys lead to its terminal node |
| ProcessProps.FollowPrefix | supcom_profiler_converter/core/process.py:34-37 | a path that can be followed can be followed through each of its prefixes |
| ProcessProps.FollowIdentifier | supcom_profiler_converter/core/process.py:84-93 | the node the first `k` frames lead to is in the arena and carries frame `k - 1`'s callee key |
| ProcessProps.FollowSameKeys | supcom_profiler_converter/core/process.py:71-93 | two stacks whose first `k` frames have equal callee and call-site keys lead to the same place |
| ProcessProps.FollowDiverges | supcom_profiler_converter/core/process.py:84-93 | where two paths' last callee keys differ, their nodes differ |
| ProcessProps.AllHaveFramesPrefix | supcom_profiler_converter/core/process.py:34-35 | a prefix of stacks that all have frames still all have frames |
| ProcessProps.ProcessAllExtends | supcom_profiler_converter/core/process.py:34-37 | what the first `i` stacks built is kept by the rest of `process` |
| ProcessProps.ProcessAllStep | supcom_profiler_converter/core/process.py:34-37 | stack `j` is folded into the forest the stacks before it built |
| ProcessProps.PathsFollowed | supcom_profiler_converter/core/process.py:34-93 | after `process`, every stack's path can be followed through each of its prefixes, and the whole path leads to the node its last frame reached |
| ProcessFrame.StoreNodes | supcom_profiler_converter/core/process.py:80-93 | writing the designated dict back changes only the parent's children, and only for frames after the first |
| ProcessFrame.LocateCases | supcom_profiler_converter/core/process.py:84-93 | a node already filed under the callee key is reused and the forest is unchanged; otherwise exactly one node is appended, named after the frame with total 0.0, and only the parent's children change |
| ProcessFrame.AddStepFrame | supcom_profiler_converter/core/process.py:42-98 | one `_add` changes an old node only if it is the parent or the returned node, adds at most the returned node, and overwrites only the returned node's total, and only at the last frame |
| ProcessFrame.WalkFromTotals | supcom_profiler_converter/core/process.py:35-96 | the rest of a walk overwrites one total, that of the node it ends at, with the stack's duration; every other old node keeps its total and new nodes have 0.0 |
| ProcessFrame.AddStepPaths | supcom_profiler_converter/core/process.py:42-98 | an old node one `_add` changes lies on the stack's path, and a node it creates lies on the path at a frame whose name it carries |
| ProcessFrame.OnStackPathExtends | supcom_profiler_converter/core/process.py:34-37 | lying on a stack's path survives any extension of the forest |
| ProcessFrame.WalkFromFrame | supcom_profiler_converter/core/process.py:35-37 | the rest of a walk changes old nodes only on the stack's path, and creates only nodes on that path |
| ProcessFrame.AddStackFrame | supcom_profiler_converter/core/process.py:34-96 | folding in a stack inserts nodes only along its path, changes old nodes only on its path, and changes only the terminal node's total, which becomes the stack's duration |
| ProcessHistory.EndNodes | supcom_profiler_converter/core/process.py:34-37 | one end node per stack |
| ProcessHistory.NodeCounts | supcom_profiler_converter/core/process.py:34-37 | one arena size before each stack, plus one after the last |
| ProcessHistory.EndNodesAt | supcom_profiler_converter/core/process.py:34-37 | entry `j` is the node stack `j`'s last frame reached when it was folded in |
| ProcessHistory.NodeCountsAt | supcom_profiler_converter/core/process.py:34-37 | entry `j` is the size of the arena after the first `j` stacks |
| ProcessHistory.LastIndexOf | supcom_profiler_converter/core/process.py:95-96 | gives the last position holding `n`, or `None` exactly when no position does |
| ProcessHistory.LastEndingSpec | supcom_profiler_converter/core/process.py:95-96 | names a stack that ended at the node with no later stack ending there, or none when no stack ended there |
| ProcessHistory.EndNodesInArena | supcom_profiler_converter/core/process.py:34-37 | every stack ends at a node of the final arena |
| ProcessHistory.TotalIsLastWriter | supcom_profiler_converter/core/process.py:95-96 | overwrite on revisit: a node's total is the duration of the last stack that ended at it, not a sum, and 0.0 if no stack did |
| ProcessHistory.NeverEndedIsZero | supcom_profiler_converter/core/process.py:10-96 | a node that no stack ended at keeps total 0.0 |
| ProcessHistory.OriginKept | supcom_profiler_converter/core/process.py:86-93 | the frame that created a node stays its creator as more stacks are folded in |
| ProcessHistory.OriginNew | supcom_profiler_converter/core/process.py:86-93 | a node the last stack added was created by one of that stack's frames, and the frame's path leads to it |
| ProcessHistory.NodeOrigin | supcom_profiler_converter/core/process.py:86-93 | every node was created by some frame of some stack, whose prefix leads to it, and it keeps that frame's source, lineno and name |
| ProcessRoots.FirstIndex | supcom_profiler_converter/core/process.py:32-39 | gives the first position of a present key |
| ProcessRoots.DedupSpec | supcom_profiler_converter/core/process.py:32-39 | removing repeats keeps every key, repeats none, and orders the keys by first appearance |
| ProcessRoots.RootKeys | supcom_profiler_converter/core/process.py:35 | one root key per stack, `funcs[0].identifier(False)` |
| ProcessRoots.WalkFromKeepsRoots | supcom_profiler_converter/core/process.py:36-37 | frames after the first never touch `functions` |
| ProcessRoots.AddStackRoots | supcom_profiler_converter/core/process.py:35-93 | folding in a stack appends its root key to `functions` unless the key is already there |
| ProcessRoots.RootKeysOfProcess | supcom_profiler_converter/core/process.py:32-37 | the keys of `functions` are the distinct root keys in order of first appearance |
| ProcessRoots.RootsReturned | supcom_profiler_converter/core/process.py:32-39 | the returned list holds exactly one node per distinct root identifier, each carrying that identifier, with no node twice, in order of first appearance |
| ProcessSlots.LookupInArena | supcom_profiler_converter/core/process.py:79-93 | whatever a slot of a well-formed forest holds is in the arena |
| ProcessSlots.DesignatedLookup | supcom_profiler_converter/core/process.py:71-86 | what the designated dict holds under the callee key is what the frame's slot holds |
| ProcessSlots.GrownChild | supcom_profiler_converter/core/process.py:88-92 | a new childless node fills no slot and empties none |
| ProcessSlots.StoredChild | supcom_profiler_converter/core/process.py:80-93 | writing the bucket back changes only the slots under that parent and call site |
| ProcessSlots.LocateCreates | supcom_profiler_converter/core/process.py:87-93 | when the frame's slot is empty, the located node is the next arena position |
| ProcessSlots.GrownRoot | supcom_profiler_converter/core/process.py:87-93 | creating a node fills only its own root slot among the roots |
| ProcessSlots.GrownUnderRoots | supcom_profiler_converter/core/process.py:71-93 | creating a root node changes no slot under a parent |
| ProcessSlots.GrownUnderNode | supcom_profiler_converter/core/process.py:76-93 | creating a child node fills only its own slot under that parent |
| ProcessSlots.LocateLookup | supcom_profiler_converter/core/process.py:84-93 | after a node is created, its slot holds it and every other slot holds what it held |
| ProcessSlots.LocateLookups | supcom_profiler_converter/core/process.py:84-93 | a node `_add` creates fills exactly the slot it is filed in, and every other slot is unchanged |
| ProcessSlots.AddStepSlotsUnique | supcom_profiler_converter/core/process.py:42-98 | `_add` keeps every node in at most one slot |
| ProcessSlots.WalkFromSlotsUnique | supcom_profiler_converter/core/process.py:35-37 | the rest of a walk keeps every node in at most one slot |
| ProcessSlots.ProcessAllSlotsUnique | supcom_profiler_converter/core/process.py:31-37 | after `process`, no node is filed in two places: no duplicates |
| ProcessSlots.RootSlotUnique | supcom_profiler_converter/core/process.py:86-93 | with unique slots, a root node is filed under one root key only |
| ProcessSlots.RootNotChild | supcom_profiler_converter/core/process.py:86-93 | with unique slots, a root node is nobody's child |
| ProcessSlots.ChildSlotUnique | supcom_profiler_converter/core/process.py:79-93 | with unique slots, a child node has one parent, one call site and one callee key |
| ProcessSlots.Steps | supcom_profiler_converter/core/process.py:76-84 | the steps of a stack's first `k` frames are their call-site and callee keys, one step per frame after the first |
| ProcessSlots.FollowAsPath | supcom_profiler_converter/core/process.py:71-93 | following a stack is following its root key and then its steps |
| ProcessSlots.FollowPathInjective | supcom_profiler_converter/core/process.py:79-93 | with unique slots, the node an explicit key path reaches determines the path |
| ProcessSlots.StepsSameKeys | supcom_profiler_converter/core/process.py:76-84 | equal root keys and equal steps mean equal keys frame by frame |
| ProcessSlots.FollowInjective | supcom_profiler_converter/core/process.py:79-93 | with unique slots, two stack prefixes that reach the same node have the same length and the same keys |
| ProcessSlots.SameNodeIffSameKeys | supcom_profiler_converter/core/process.py:34-93 | after `process`, the prefixes of two input stacks reach the same node iff they have the same length and equal callee and call-site keys frame by frame; so stacks share one node per common prefix and split into distinct nodes where a key differs |
| SelfDurations.SumTotalsAppend | supcom_profiler_converter/core/process.py:24-26 | a sum over two node lists is the sum of the two sums |
| SelfDurations.BucketTotalIsSum | supcom_profiler_converter/core/process.py:25-26 | the inner loop sums the totals of a bucket's values |
| SelfDurations.ChildrenTotalIsSum | supcom_profiler_converter/core/process.py:24-26 | what `self_duration` subtracts is the sum of the totals of all children of all buckets |
| SelfDurations.ProcessBoth | supcom_profiler_converter/core/process.py:31-98 | folding the stacks `a;b` (2.0) and then `a` (1.0) gives the expected two-node forest |
| SelfDurations.NegativeSelfDuration | supcom_profiler_converter/core/process.py:22-96 | in that forest, `a`'s total is overwritten with 1.0 while its child keeps 2.0, so `a`'s self duration is -1.0: it is not clamped |

## Left out

- File handling in `parse` (loud_log.py:40-43): `open`, `read` and `seek` are not modelled. `LoudLog.LoudLog.Parse` takes the whole text and its lines as parameters; its precondition `LinesOf` ties the lines to the text the way `for line in f` does after `f.seek(0)`.
- `parse_loud_log` (loud_log.py:108-110) is left out. It only constructs the reader and calls `parse`.
- `float()` (loud_log.py:64) is the parameter `parseDuration`, which may refuse a text. Durations are `real`, so float rounding in `self_duration`'s sum and subtraction is not modelled.
- `int()` strips `str.isspace` whitespace, then accepts an optional sign and ASCII digits; underscores and non-ASCII digits are not modelled.
- The `IndexError` that a frame or a metrics field with too few `,`-fields raises (loud_log.py:63-64, 75) is the explicit failure `MissingField`. The source has no designed error path for it.
- LoudLog.LoudLog.FindSharedPath: the result when an `rfind` look-back finds nothing (-1, which Python's negative-index slicing turns into an odd slice) is computed, but no property is stated about it. The prefix property covers both the sentinel case and a separator kept from an earlier call with no sentinel in `data` (where `i` is -1 and the separator is looked for in `data[0:-1]`); it assumes only that both look-backs succeed.
- Process.Process: requires every stack to have at least one frame. `process` reads `funcs[0]` unconditionally and would raise `IndexError` otherwise; every stack `_parse_stacktrace` produces has a frame (`LoudLog.ParsedStacksHaveFrames`).
- Process.Arena.Add: nodes are arena positions, not Python object references. Aliasing of the designated dict is replaced by writing it back, so object identity is modelled only through positions.
- The field `CallStack.self_duration` (loud_log.py:28) is left out. Nothing in the core reads or writes it.
- `writers/stackcollapse.py` and `bin/main.py` are left out. They hold file output, the float-to-int truncation of the serializer and command-line wiring.
- Process.SetTotal, Process.Locate and Process.AddStep state only size and arena bounds in their own contracts. Their behaviour is stated in `ProcessFrame.LocateCases`, `ProcessFrame.AddStepFrame`, `ProcessProps.LocateFiles` and `ProcessSlots.LocateLookups`.
