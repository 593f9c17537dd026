# youtube-go signature decoding and stream-format parsing, in Dafny

This project models the core of the `youtube` Go package (adrg/youtube-go):

- `parseFormats` turns the entries of a video's stream map into video formats. It keeps an entry only when its `type`, `quality` and `url` fields are all present and non-empty. It attaches the entry's signature to the URL as `url&signature=<sig>`.
- When an entry carries a scrambled signature `s` instead of a plain `sig`, `decodeSignature` unscrambles it using the player script. The steps are:
  1. Find the decoding routine's name from the call site `.sig||NAME(`.
  2. Find the routine's helper object and its body.
  3. Classify each helper method as reverse, splice or swap by the first marker its body contains.
  4. Read the calls `XX.key(a,N)` of the body in textual order.
  5. Apply the operations one after the other to the signature.
- `reverseString` reverses a string rune by rune into an array sized by its byte length.

Each Go routine that works step by step is a Dafny `method` with the same loops and early exits. Each method is proved to compute a specification function: `Reversed`, `Swapped`, `FirstMatch`, `BuildTable`, `Run`, `Decode` and `Collect`. Lemmas state what those functions promise.

The regular expressions (formats.go:14-18) use Go's leftmost-first semantics. Each one is modelled as a search at each start position. Greedy repetition takes the longest choice first and lazy repetition the shortest. `FindStringSubmatch` is the leftmost match (`Text.Leftmost`). `FindAllStringSubmatch` gives the successive non-overlapping matches (`Text.AllMatches`).

Runtime panics of the Go code are not modelled as results. They become preconditions instead:

- `Decoder.Safe` and `Decoder.NoPanic` require every slice index to be at most the signature's length.
- They require every swap index to be below its length.

The player script is given as its sequence of lines. The stream map is given as its entries, each already parsed into a query, or `None` where `url.ParseQuery` failed.

Modules:

| file | module | models |
|---|---|---|
| wrappers.dfy | Wrappers | `Option` and `Result` |
| text.dfy | Text | character classes, substring search, leftmost and find-all regex search |
| utils.dfy | Utils | `reverseString` (utils.go:8-18) |
| transform.dfy | Transform | the three operations reverse, slice and swap (formats.go:180-193) |
| patterns.dfy | Patterns | the four regular expressions and the marker list (formats.go:13-25) |
| decoder.dfy | Decoder | `decodeSignature` (formats.go:85-197) |
| decode_properties.dfy | DecodeProperties | properties of the whole decoder, and one example script decoded from end to end |
| formats.dfy | Formats | `parseFormats` (formats.go:27-83) |

### Two consequences of the code

- **One-argument calls in the routine's body.** The rule pattern's `[^,]+` does not stop at `)`. A one-argument call therefore runs on to the comma of the next call and takes that call's index. `DecodeProperties` decodes one example script from end to end. In it, the helper object is `{aa: reverse, bb: splice, cc: swap}` and the routine's body is `a=a.split("");XY.bb(a,2);XY.aa(a);XY.cc(a,1);return a.join("")`. Run as JavaScript, that body turns `"ABCDE"` into `"DEC"`. The decoder reads only two rules, `bb 2` and `aa 1`, so it yields `"EDC"`. `DecodeProperties.ScenarioRules` proves which rules are read. `DecodeProperties.ScenarioDecode` proves that `Decode` gives `"EDC"` for the whole script. `DecodeProperties.ScenarioRun` proves that the three calls of the body would give `"DEC"`.
- **The swap index.** formats.go:190 reads `runes[index % len]`, but formats.go:191 writes `runes[index]`. An index at or past the length therefore panics, and the modulo never changes which rune is read. The model defines swap only for `index < |s|`, where `index % len == index`.

## Model

| member | source | states |
|---|---|---|
| Text.RunLen | formats.go:14 | the greedy runs `[a-zA-Z0-9]+` and `\d+` take the longest run of class characters: all counted characters are in the class and the next one is not |
| Text.IndexOf | formats.go:17-18 | `[^)]*`, `[^}]*` and `[^,]+` stop at the first occurrence of the excluded character, or at the end |
| Text.ContainsFrom | formats.go:143 | the search from position `i` succeeds exactly when `w` occurs at some position at or after `i` |
| Text.Contains | formats.go:143 | `strings.Contains` holds exactly when the word occurs at some position |
| Text.Leftmost | formats.go:99 | `FindStringSubmatch` returns the match at the smallest start position that matches, and nothing exactly when no position matches |
| Text.LongestFirst | formats.go:15 | a greedy repetition tries the longest count first: a result comes from some count with no longer count succeeding, and there is none exactly when no count succeeds |
| Text.GreedyRun | formats.go:15 | greedy `\s+` gives a result exactly when some run of white space lets the rest of the pattern match, and no longer run of white space does |
| Text.ShortestGroupIff | formats.go:15 | lazy `(.+?)` captures `t` exactly when `t` is non-empty, has no line breaks, occurs at the group's start, the rest of the pattern matches right after it, and the rest matches at no earlier end |
| Text.AllMatches | formats.go:128 | `FindAllStringSubmatch` returns no match exactly when no start position matches; the matches never outnumber the characters |
| Text.AllMatchesScan | formats.go:128 | the result of `FindAllStringSubmatch` is a left-to-right scan: the `i`-th match starts at `qs[i]`, each search resumes where the previous match ended, no match starts in the text skipped before a match, and none starts after the last match |
| Text.AllMatchesInOrder | formats.go:160 | the start positions of the matches strictly increase, and each match ends at or before the start of the next one |
| Utils.Utf8Size | utils.go:9 | a rune takes one to four bytes, and exactly one when it is ASCII |
| Utils.ByteLen | utils.go:9-10 | `len(s)` counts bytes: never fewer than the runes, and zero for the empty string |
| Utils.AsciiByteLen | utils.go:9-10 | for ASCII input the byte length is the rune count, so the whole rune array is returned |
| Utils.ReversedAt | utils.go:12-17 | the reversal has the same length and holds the `i`-th rune from the end at position `i` |
| Utils.ReversedInvolutive | utils.go:8-18 | reversing twice gives back the string |
| Utils.ReverseString | utils.go:8-18 | filling a byte-length array from the back and returning the filled tail gives exactly the rune-wise reversal of `s`, for any UTF-8 content |
| Transform.SwapRunes | formats.go:187-192 | the swap exchanges the first rune with the rune at `index` and leaves every other rune and the length unchanged |
| Transform.SliceDrops | formats.go:184-185 | slicing at `n` drops exactly the first `n` characters and keeps the rest in order |
| Transform.SliceSlice | formats.go:184-185 | two slices compose into one slice by the sum of the indices |
| Transform.SwapExchanges | formats.go:187-192 | the swap step of the rules loop exchanges positions 0 and `n` and leaves everything else unchanged |
| Transform.SwapInvolutive | formats.go:187-192 | a swap with the same index undoes itself |
| Transform.ReverseInvolutive | formats.go:181-182 | the reverse step keeps the length, ignores its index and undoes itself |
| Patterns.NameAtIff | formats.go:14 | a call-site match at `p` captures `name` exactly when `.sig||name(` occurs at `p` with `name` a non-empty alphanumeric word |
| Patterns.FindName | formats.go:99-101 | a found routine name is never empty |
| Patterns.FindNameLeftmost | formats.go:99-101 | no name is found exactly when the pattern matches nowhere in the line; a found name comes from a match with no match further left |
| Patterns.RulesGroupEnd | formats.go:15 | the lazy `(.+?)}` stops at the first `}` past its minimum length: the group is non-empty, has no line breaks, is followed by `}`, and holds no `}` past its minimum length |
| Patterns.AfterName | formats.go:15 | after the routine name, `\([^)]*\){(.+?)}` gives a non-empty body group without line breaks |
| Patterns.AfterNameIff | formats.go:15 | `\([^)]*\){(.+?)}` captures `r` exactly when `(` opens, the first `)` after it is followed by `{`, then `r`, then `}`, and `r` is non-empty, has no line breaks and no `}` after its first character |
| Patterns.SpaceThenName | formats.go:15 | `\s+`, the routine name and the rest of the pattern give a non-empty body group without line breaks |
| Patterns.SpaceThenNameIff | formats.go:15 | `\s+` before the name gives `r` exactly when some run of white space is followed by the name and a match with capture `r`, and after no longer run of white space does the rest match |
| Patterns.AfterObject | formats.go:15 | `};function`, white space, the name and the rest give a non-empty body group without line breaks |
| Patterns.ObjectGroup | formats.go:15 | the lazy object group gives two non-empty groups without line breaks |
| Patterns.ObjectGroupIff | formats.go:15 | the lazy object group captures `t` and then `r` exactly when `t` is non-empty, has no line breaks and occurs at the group's start, `};function` and the rest of the pattern match right after `t` with capture `r`, and they match at no earlier end |
| Patterns.SpaceThenObject | formats.go:15 | `var\s+` followed by the rest gives two non-empty groups without line breaks |
| Patterns.SpaceThenObjectIff | formats.go:15 | `\s+` after `var` gives the captures exactly when some run of white space is followed by `..={` and a match with those captures, and after no longer run of white space does the rest match |
| Patterns.BodyAt | formats.go:15 | a body match at `p` has two non-empty groups without line breaks |
| Patterns.FindBody | formats.go:111-118 | a found helper object and body are non-empty and have no line breaks |
| Patterns.FindBodyLeftmost | formats.go:111-118 | there is no body match exactly when no start position matches; a found pair of captures comes from a start position with no match further left |
| Patterns.BodyTextRoundTrip | formats.go:15 | a line `var HH={OBJ};function NAME(PARAMS){BODY}` is read back by the body pattern for `NAME` as exactly `OBJ` and `BODY`, when `HH` is two characters with no line break and does not start with white space, `NAME` is a non-empty word of ASCII letters and digits (the only names the call-site pattern yields), `OBJ` is non-empty with no line break and no `};`, `PARAMS` has no `)`, and `BODY` is non-empty with no line break and no `}`; the condition on `HH` is needed, since the greedy `\s+` after `var` would otherwise take a leading space of `HH` |
| Patterns.MethodAt | formats.go:17 | a helper-method match at `p` has a two-character key followed by `:function(`, parameters without `)`, and a body free of `}` between `){` and `}` at the match's end |
| Patterns.MethodAtIff | formats.go:17 | the method pattern matches at `p` with method `m` exactly when the text there is `m`'s key, `:function(`, parameters without `)`, `){`, `m`'s body free of `}`, and `}`; so the match is unique |
| Patterns.FindMethodsInOrder | formats.go:128 | the helper methods are reported in the order they occur, without overlap, each search resuming where the previous match ended and no match skipped |
| Patterns.ObjectTextRoundTrip | formats.go:17 | an object literal written as one or more comma-separated definitions `kk:function(PARAMS){BODY}` is read back as exactly its methods, in order, when each key is two characters, `PARAMS` has no `)`, and no part has a `}` or a line break |
| Patterns.ClassifyPriority | formats.go:141-148 | a method is reverse when its body contains `.reverse(`; otherwise splice when it contains `.splice(`; otherwise swap when it contains `var c=`; otherwise unknown |
| Patterns.RuleAt | formats.go:18 | a rule match at `p` has a two-character key between `.` and `(`, ends with `)` and ends after `p` |
| Patterns.RuleAtIff | formats.go:18 | the rule pattern matches at `p` as rule `kk N` exactly when the text there is two characters, `.`, the key `kk`, `(`, comma-free text up to the first comma, a non-empty digit run and `)`, with `N` the decimal value of the whole digit run |
| Patterns.FindRulesInOrder | formats.go:160 | the rules are reported in the order their calls occur, without overlap, each search resuming where the previous match ended and no match skipped |
| Decoder.FirstMatch | formats.go:94-104 | the scan stops at the first line that matches, returns its capture and index, and finds nothing exactly when no line matches |
| Decoder.FirstMatchAt | formats.go:95-103 | a line that matches, with no earlier line matching, is the one the scan stops at |
| Decoder.FirstMatchNone | formats.go:106-108 | when no line matches, the scan finds nothing |
| Decoder.FirstMatchPrefix | formats.go:94-104 | lines after the first matching line do not change the first match |
| Decoder.BuildTableOk | formats.go:133-153 | building the method table succeeds exactly when every method's body carries a marker; otherwise it fails with the unknown-transformation error |
| Decoder.BuildTableKeys | formats.go:133-157 | the table's keys are exactly the methods' keys, and the table is empty only when there are no methods |
| Decoder.BuildTableLastWins | formats.go:144 | a key defined more than once takes the operation of its last definition |
| Decoder.RunFailsIffUnknownKey | formats.go:165-194 | running the rules fails exactly when some rule names a key absent from the table, and the error is the invalid-method error |
| Decoder.RunInOrder | formats.go:165-194 | the rules apply in textual order: running `a + b` runs `a`, then runs `b` on its result, and stops at the first failure |
| Decoder.ScanForFuncName | formats.go:91-108 | the name search yields the capture of the first matching line and the lines read through it, or the empty name exactly when no line matches |
| Decoder.ScanForBody | formats.go:114-125 | the body search yields the two groups of the first line that matches, or empty groups exactly when no line matches |
| Decoder.MatchMarker | formats.go:141-152 | a method is classified exactly when its body contains a marker, and then by the first marker in list order |
| Decoder.ParseTransformations | formats.go:127-157 | no helper-method match gives the not-found error; otherwise the result is the method table, and a successful table is never empty |
| Decoder.ApplyRules | formats.go:159-196 | the rules loop computes `Run` on the table, the rules and the signature |
| Decoder.DecodeSignature | formats.go:85-197 | the whole routine computes `Decode` of the player script and the signature |
| DecodeProperties.EmptyPlayerDataFails | formats.go:86-88 | empty player data fails with the empty-data error |
| DecodeProperties.MissingNameFails | formats.go:106-108 | a script with no call-site match fails with the name-not-found error |
| DecodeProperties.LinesAfterNameIgnored | formats.go:94-121 | lines after the one that names the routine do not affect the decoder |
| DecodeProperties.UnknownMethodFails | formats.go:150-152 | one helper method without a marker fails the whole decode with the unknown-transformation error |
| DecodeProperties.DecodeSucceedsIff | formats.go:159-196 | decoding succeeds exactly when extraction succeeds and every rule names a known key |
| DecodeProperties.ExtractedProgramNonEmpty | formats.go:129-163 | a successful extraction has a non-empty method table and at least one rule |
| DecodeProperties.ScenarioReverseBody | formats.go:141-148 | the example's body `a.reverse()` classifies as reverse |
| DecodeProperties.ScenarioSpliceBody | formats.go:141-148 | the body `a.splice(0,b)` classifies as splice |
| DecodeProperties.ScenarioSwapBody | formats.go:141-148 | the body `var c=a[0];a[0]=a[b%a.length];a[b]=c` classifies as swap |
| DecodeProperties.ScenarioMethods | formats.go:128 | the example's helper object yields the methods `aa`, `bb` and `cc` with their bodies, in that order |
| DecodeProperties.ScenarioTableBuilt | formats.go:133-153 | those methods build the table `aa` reverse, `bb` slice, `cc` swap |
| DecodeProperties.ScenarioFirstRule | formats.go:18 | the call `XY.bb(a,2)` matches as the rule `bb 2` |
| DecodeProperties.ScenarioSecondRule | formats.go:18 | the one-argument call `XY.aa(a)` matches as the rule `aa 1`, the match running through the next call |
| DecodeProperties.ScenarioRules | formats.go:160 | the routine's whole body yields exactly the rules `bb 2` and `aa 1`, in that order |
| DecodeProperties.ScenarioName | formats.go:99-101 | the example line's call site names the routine `XZ` |
| DecodeProperties.ScenarioBodyFound | formats.go:111-118 | the body pattern built for `XZ` captures the helper object's inside and the routine's body |
| DecodeProperties.ScenarioProgram | formats.go:128-163 | the helper object and the routine's body yield the table and the rules `bb 2`, `aa 1` |
| DecodeProperties.ScenarioExtract | formats.go:86-163 | everything the decoder reads from the one-line script is that table and those two rules |
| DecodeProperties.ScenarioRun | formats.go:165-194 | the rules `bb 2`, `aa 1` turn `"ABCDE"` into `"EDC"`; the body's three calls would give `"DEC"` |
| DecodeProperties.ScenarioDecode | formats.go:85-197 | decoding `"ABCDE"` with the example script reaches no panic and gives `"EDC"` |
| DecodeProperties.ScenarioShortSignaturePanics | formats.go:185 | decoding the one-character signature `"A"` with the example script panics: its first rule slices at 2, past the end |
| DecodeProperties.EmptySignature | formats.go:165-194 | reverse, then slice 0, turn the empty signature into the empty signature |
| DecodeProperties.RuleOrderMatters | formats.go:165-194 | the same rules in another order give another result |
| Formats.ParseFormats | formats.go:27-83 | the loop yields the formats of the kept entries, or the no-formats error exactly when none is kept |
| Formats.KeptEntriesAreComplete | formats.go:32-73 | a kept entry parsed, has non-empty type, quality and URL, and its format carries them, with the URL followed by `&signature=` |
| Formats.SigPassedThrough | formats.go:54-73 | a non-empty `sig` goes into the URL unchanged, without the player script |
| Formats.UndecodableEntrySkipped | formats.go:60-64 | an entry whose `s` fails to decode is skipped silently |
| Formats.DecodedSignatureUsed | formats.go:60-72 | an entry whose `s` decodes is kept, with the decoded signature in its URL |
| Formats.CollectLength | formats.go:31-76 | at most one format per entry |
| Formats.CollectMembers | formats.go:31-76 | a format is in the result exactly when some entry yields it |
| Formats.CollectEmpty | formats.go:77-80 | the result is empty, and parseFormats fails, exactly when every entry is skipped |
| Formats.CollectInOrder | formats.go:31-76 | formats appear in entry order: those of `a + b` are those of `a` followed by those of `b` |

## Left out

- Reading the player script line by line with `bufio.Scanner` (formats.go:94-96) is not modelled. The script arrives already split into lines. Scanner's 64 KiB line limit is not modelled either; past it the Go loop stops early.
- `strings.Split` of the stream map and `url.ParseQuery` (formats.go:30-35) are not modelled. Each entry arrives as a parsed query, or `None` for a parse error. Only the first value of each key is seen, as `query.Get` does.
- `fmt.Sprintf` and `regexp.MustCompile` are not modelled: the URL is a concatenation, and each pattern is a Dafny function.
- Runtime panics are not modelled as results: a slice past the end, a swap index at or past the length, and a swap on an empty signature. `Decoder.NoPanic` and `Formats.EntriesDecodable` require their absence.
- Transform.Apply: the Go `signature[index:]` slices bytes. The model slices characters, so it matches the code only on ASCII signatures.
- Utils.ReverseString: invalid UTF-8 is not modelled. Go turns each bad byte into U+FFFD. A Dafny string holds only valid characters.
- Formats.Itag: the value is unbounded. `strconv.Atoi` on an out-of-range `itag` clamps it and reports an error, which the code ignores.
- Decoder.ApplyRules: `strconv.Atoi` on the rule index cannot fail on the digits `\d+` captures, except by overflow. Overflow is not modelled: the index is an unbounded natural.
- Some checks never fire, so no error value models them:
  - `len(match) <= 2` (formats.go:135-137 and 166-168): a match of a pattern with two groups always has three entries.
  - `len(trans) == 0` (formats.go:155-157): `Decoder.ParseTransformations` proves a successful table is non-empty.
- Text.AllMatches: its own contract states only when the result is empty and a length bound. Which matches are reported, and in what order, is stated by `Text.AllMatchesScan` and `Text.AllMatchesInOrder`.
- Patterns.AfterName: its own contract states only that the group is non-empty and has no line breaks. Where the match lies is stated by `Patterns.AfterNameIff`.
- Patterns.SpaceThenName: its own contract states only what the group looks like. The greedy choice of white space is stated by `Patterns.SpaceThenNameIff`.
- Patterns.AfterObject: its own contract states only what the group looks like. The text it needs is stated in `Patterns.ObjectGroupIff` and `Patterns.BodyTextRoundTrip`, which use it.
- Patterns.ObjectGroup: its own contract states only what the groups look like. The lazy choice of the object group is stated by `Patterns.ObjectGroupIff`.
- Patterns.SpaceThenObject: its own contract states only what the groups look like. The greedy choice of white space is stated by `Patterns.SpaceThenObjectIff`.
- Patterns.BodyAt: its own contract states only what the groups look like. Its exact result on a well-formed declaration is stated by `Patterns.BodyTextRoundTrip`.
- Patterns.FindBody: its own contract states only what the groups look like. The leftmost choice is stated by `Patterns.FindBodyLeftmost`, and the captures on a well-formed line by `Patterns.BodyTextRoundTrip`.
- Patterns.FindBody: the routine's name is matched as literal text. formats.go:111-112 splices it into the regular expression unescaped, so a name holding regex syntax such as `a+` or `(` would behave differently there, and `(` would make `MustCompile` panic. The two agree for the names `Patterns.FindName` yields, which are ASCII letters and digits only.
- Patterns.MethodAt: its own contract states the shape of a match. That the match is the only one at `p` is stated by `Patterns.MethodAtIff`.
- Patterns.RuleAt: its own contract states the key and the closing parenthesis only. How the comma and the index are found, in both directions, is stated by `Patterns.RuleAtIff`.
- Patterns.FindName: only the leftmost position is proved (`FindNameLeftmost`). That the capture is the longest alphanumeric run comes from `NameAtIff`.
- `getURLData` (utils.go:20-33) is not part of this model: it is network I/O. The video and search code is not part of this model either.
