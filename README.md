# Inline stopwatch: a verified model of its tag languages

This project models, in Dafny, the text-processing core of an Obsidian plugin that shows inline stopwatches. The plugin has gone through several versions, and each one reads and writes the stopwatch's settings in a small text notation inside a code span or code block. The model covers all of them:

- **The tag language** (`src/TagSyntaxHandler.ts`):
  - `parseGroupValue`, the brace matcher;
  - `topLevelParse`, the `key: value` / `key: { ... }` splitter;
  - `parseTag`, the recursive tree builder;
  - `stripQuotes` and `toObject`, the materializer;
  - `parse`, with its success/error result;
  - `write`/`render`/`escapeString`, the serializer.
  - Modules `BraceMatcher`, `TagSyntax` and `TagWriter`.
- **The typed field extractor** `TagParser.start` (`src/parser.ts`): block-name detection, splitting at tag names, and integer / yes-no / string conversion. Module `TagParser`.
- **The `stopwatch id:… passed:…` snippet** of `src/main.ts`: `parseSnippet`, `stringifySnippet`, `parseTime`, `pad` and `formatTime`. Module `Snippet`.
- **The older snippet** of `main.js`: `parseSpec`, `parseTime`, `formatTime` and `buildSpecString`. Module `SpecString`.
- **Shared pieces:**
  - The keyed regular-expression scan that both snippet versions run is module `KeyScan`.
  - `newId`, the allocator both registries use, is module `Ids`.
- **The stopwatch data** of `src/stopwatch.ts`:
  - the number constraints of `stopwatchSchema`;
  - `completeData`;
  - the `Tag` class and its play/pause `callback`;
  - `makeTag`.
  - Module `Stopwatch`.
- **The earlier tag registry** of `src/trash/tagManager.ts`: the `Tag` constructor's defaulting, and `TagManager.parse`, which allocates ids and files tags in the `tags` dictionary. Module `LegacyTags`.

Supporting modules:
- `Text`: JavaScript's white-space set, `trim`, word characters, `startsWith`, `indexOf`, `split`, `join`.
- `Numbers`: numbers as integers or `NaN`, `parseInt`, `Number`, `toString`, `padStart`, truncating `/` and `%`, `| 0`.
- `Records`: a JavaScript object as an ordered list of key/value pairs. Assigning to an existing key replaces its value in place; a new key is appended.
- `Wrappers`: `Option` and `Result`.

Throws and `null` results are modelled as `Result` and `Option` values.

The code is followed where it and the plugin's description disagree. That description says a stray closing brace, as in `limit: 5 } extra`, makes `parse` fail. The code does not do that:
- `parseGroupValue` throws only when the first brace character of its input is `}`.
- `topLevelParse` calls it only on text that starts with `{`.
- So no brace-matching error reaches `parse`'s `catch` branch, and its result is whatever the validator says (`TagSyntax.ParseOutcomeIsValidators`). In `limit: 5 } extra`, the final value simply runs to the end of the text.
- Two other throws can still reach that branch, and both are outside the model: a `RangeError` when very deep brace nesting exhausts the call stack of `parseTag`, and a throw from the validator's error formatting inside the `try`.

Both snippet versions are meant to read `h:m:s` times back from what they write (`TimeOfFormatTime` in each of `Snippet` and `SpecString`). For `src/main.ts` this holds with the hours kept whole, which is the corrected `Snippet.FormatTime`. As written, the hours go through `| 0`, and from 2^31 hours on the text reads back as a different number (`Snippet.FormatTimeWrapsHours`). For `main.js` this holds only for non-negative times, because `Math.floor` on a negative number of hours does not match the truncating `%` on the rest (`SpecString.TimeOfFormatTimeNegative`).

## Model

| member | source | states |
|---|---|---|
| BraceMatcher.ParseGroupValue | src/TagSyntaxHandler.ts:45-71 | The depth-counting loop returns exactly `MatchGroup`, the first-brace specification below: a closed group, the unchanged text, or the failure for a stray `}`. |
| BraceMatcher.MatchingCloseSpec | src/TagSyntaxHandler.ts:47-59 | The matching close of an opening brace is the first later position where the depth returns to zero; the brace stays open at every position before it. |
| BraceMatcher.CloseIsUnique | src/TagSyntaxHandler.ts:47-59 | Any position where the depth first returns to zero after the opening brace is the matching close. |
| BraceMatcher.MatchGroupCloses | src/TagSyntaxHandler.ts:49-59 | When the first brace is `{` and it closes at depth zero, the value is the trimmed text strictly between the two braces, and next is the trimmed text after the `}`. |
| BraceMatcher.MatchGroupAt | src/TagSyntaxHandler.ts:54-59 | The same, stated through the matching close of the first brace. |
| BraceMatcher.MatchGroupNeverCloses | src/TagSyntaxHandler.ts:67-70 | When the group opened by the first brace never closes, the value is "" and next is the input, unchanged. |
| BraceMatcher.FailureIsStrayClose | src/TagSyntaxHandler.ts:61-64 | Brace matching fails exactly when some `}` drives the depth below zero. |
| BraceMatcher.StrayCloseIsFirstBrace | src/TagSyntaxHandler.ts:52-64 | A `}` can only drive the depth below zero when it is the first brace character of the text. |
| BraceMatcher.OpeningBraceNeverFails | src/TagSyntaxHandler.ts:84-88 | Text that starts with `{`, the only text `topLevelParse` hands over, never fails, and its group value is strictly shorter than the text. |
| BraceMatcher.GroupInteriorBalanced | src/TagSyntaxHandler.ts:49-59 | The interior of a closed group is balanced: its depth never drops below zero and ends at zero. |
| TagSyntax.LeftmostKeyIsBounded | src/TagSyntaxHandler.ts:77-91 | The leftmost key token (`\w+`, at most one white-space character, `:`) is also the leftmost one that starts at a word boundary. So the key regex and the look-ahead of the value regex agree on where the next key is. |
| TagSyntax.TopLevelParse | src/TagSyntaxHandler.ts:73-107 | The do-while loop returns `TopLevel(str)`: every pass's write is assigned into `out` in order, stopping at a blank remainder or when no key is left. |
| TagSyntax.PassNeverFails | src/TagSyntaxHandler.ts:84-89 | No pass of the loop fails, because a group value always starts with `{`. |
| TagSyntax.TopLevelNeverFails | src/TagSyntaxHandler.ts:73-107 | `topLevelParse` never throws, on any input. |
| TagSyntax.TopLevelRecord | src/TagSyntaxHandler.ts:74-105 | The record has distinct keys, and every key is a word other than `__proto__`, whose assignment changes the prototype and adds no entry. Every group value is shorter than the input. Each key holds the value of its last write, so a repeated key keeps the last assignment. |
| TagSyntax.TopLevel | src/TagSyntaxHandler.ts:73-107 | `topLevelParse` succeeds exactly when all of its passes do. Its record has distinct keys, and each entry is one of the loop's own-property writes. |
| TagSyntax.ParseLevel | src/TagSyntaxHandler.ts:109-139 | A level parses only when `topLevelParse` succeeds on its text. An entry is final exactly when its index is below the number of the record's final entries, so all finals come before all groups. |
| TagSyntax.StripQuotes | src/TagSyntaxHandler.ts:141-147 | The result is never longer than the trimmed text, and it differs from that text only when the text begins and ends with the same quote character. |
| TagSyntax.Materialize | src/TagSyntaxHandler.ts:149-159 | The object `toObject` builds has distinct keys, and each of them is a key of the parsed entries. |
| TagSyntax.PassOnGroup | src/TagSyntaxHandler.ts:80-89 | For a value starting with `{`: the entry is a group holding the trimmed interior of the brace pair, and the loop continues after the matching `}`. |
| TagSyntax.PassOnFinal | src/TagSyntaxHandler.ts:90-103 | For any other value: the entry is final, with the trimmed text up to the next word-bounded key token (or to the end), and the loop continues at that token. |
| TagSyntax.TextBeforeFirstKeyIgnored | src/TagSyntaxHandler.ts:77-81 | Text before the first key token is dropped: parsing from that token on gives the same writes. |
| TagSyntax.ParseGroupsSpec | src/TagSyntaxHandler.ts:113-125 | Each parsed group matches, in order, a group entry of the level. It keeps that entry's key and holds the recursive parse of its interior. |
| TagSyntax.ParseLevelNeverFails | src/TagSyntaxHandler.ts:109-139 | The recursive tree builder succeeds on every input. |
| TagSyntax.ParseLevelShape | src/TagSyntaxHandler.ts:111-138 | A level has as many entries as its record. All final entries come before all parsed groups. Each final entry is a final entry of the record, and each parsed group comes from a group entry of the record. |
| TagSyntax.StripQuotesUnwraps | src/TagSyntaxHandler.ts:141-147 | One surrounding pair of matching `"` or `'` is removed. |
| TagSyntax.StripQuotesKeepsUnquoted | src/TagSyntaxHandler.ts:141-147 | Trimmed text that is not wrapped in a matching pair of quotes is returned as it is. |
| TagSyntax.StripQuotesLoneQuote | src/TagSyntaxHandler.ts:143-144 | A lone quote character becomes "". |
| TagSyntax.StripQuotesShape | src/TagSyntaxHandler.ts:141-147 | The result is the trimmed text, or that text minus its first and last characters, or "" when the trimmed text is one character. |
| TagSyntax.ToObject | src/TagSyntaxHandler.ts:149-159 | The loop builds `Materialize(pairs)`: final values through `stripQuotes`, parsed groups recursively, in order. |
| TagSyntax.MaterializeLastWins | src/TagSyntaxHandler.ts:149-159 | The object has distinct keys. A key holds the conversion of its last pair, so a later duplicate overwrites an earlier one. A key is missing exactly when no pair has it. |
| TagSyntax.Parse | src/TagSyntaxHandler.ts:161-176 | `parse` returns `ParseSpec`: the validator's verdict on the materialized object, or "Error" if parsing failed. |
| TagSyntax.ParseOutcomeIsValidators | src/TagSyntaxHandler.ts:161-176 | Parsing never fails. `parse` succeeds exactly when the validator accepts, and returns the validator's result or its error text. |
| TagWriter.TwoPassEscape | src/TagSyntaxHandler.ts:179-180 | Replacing backslashes and then quotes escapes each character on its own: the second pass never touches a backslash the first one added. |
| TagWriter.EscapeString | src/TagSyntaxHandler.ts:179-180 | The literal is wrapped in double quotes, and its interior is the text with each backslash and each double quote escaped on its own. |
| TagWriter.RenderFields | src/TagSyntaxHandler.ts:185-204 | An empty object renders as "". Any other object's rendering starts with its first key and ": ". |
| TagWriter.EscapeStringRoundTrip | src/TagSyntaxHandler.ts:179-180 | An escaped string is quoted, and unescaping its interior gives the original text back. |
| TagWriter.IndexArray | src/TagSyntaxHandler.ts:191-192 | The array's items end up under the keys "0", "1", … in order. |
| TagWriter.ArrayAsIndexedObject | src/TagSyntaxHandler.ts:190-193 | An array is written as the object that holds item `i` under key `String(i)`, with each index present once. |
| TagWriter.Render | src/TagSyntaxHandler.ts:185-203 | The recursive loop returns `RenderFields`: one part per entry, joined by single spaces. |
| TagWriter.RenderPart | src/TagSyntaxHandler.ts:188-200 | The branch for one entry pushes exactly `Part(k, v)`: a nested object or array as `k: { … }` around its rendering, a number, boolean or null after `k: `, and any other value as an escaped string. |
| TagWriter.StringPartReadsBack | src/TagSyntaxHandler.ts:198-199 | A string entry is written as its key, ": ", and a quoted literal that unescapes to the original text. |
| TagWriter.Write | src/TagSyntaxHandler.ts:205-207 | The output is exactly the opening fence with the block name, the trimmed rendering, and the closing fence. |
| TagParser.TagList | src/parser.ts:27 | The tag list holds each parameter's tag name, in order. |
| TagParser.SplitParts | src/parser.ts:39-42 | The loop over the tags leaves `parts` equal to splitting the chunk by each tag in turn. |
| TagParser.SplitEachInPlace | src/parser.ts:41 | One `flatMap` step replaces every part by its pieces, in order. |
| TagParser.SplitAtTagBoundaries | src/parser.ts:41 | Every piece after the first starts with the tag, optional white space and `:`. No piece holds such a position anywhere but at its start, so the split also happens mid-word. |
| TagParser.SplitChunkCuts | src/parser.ts:39-42 | After splitting by every tag in turn, each part after the first begins a remainder of the chunk that starts with one of the tags, optional white space and `:`. |
| TagParser.MidWordCut | src/parser.ts:39-42 | With the tags "ab" and "b", the chunk "xab:" splits into "x", "a", "b:". The part "a" does not itself start with a tag, so the cut promise holds of the remaining text and not of each part alone. |
| TagParser.ConcatIsJoin | src/parser.ts:41 | Gluing the parts back together is joining them with "". |
| TagParser.FilterAndTrim | src/parser.ts:43 | The loop yields `Fragments(parts)`: the non-empty parts, trimmed, in order. |
| TagParser.FragmentsAreTrimmedParts | src/parser.ts:43 | Each fragment is the trimmed text of some non-empty part. |
| TagParser.FindStartingWith | src/parser.ts:51 | `find` returns a part that starts with the tag name, and nothing exactly when no part does. |
| TagParser.MissingTagIsNull | src/parser.ts:51-52 | A parameter whose tag name begins no fragment reads as null. |
| TagParser.FieldFromFirstFragment | src/parser.ts:51-55 | A parameter reads the first fragment that begins with its tag name, taking the trimmed text after that fragment's first colon. |
| TagParser.TextAfterColonSpec | src/parser.ts:54-55 | The captured text is the rest of the line after the first colon that has a character after it on the same line. It is empty exactly when there is no such colon. |
| TagParser.KeepDigits | src/parser.ts:59 | Removing the non-digits leaves only digits and never lengthens the text. |
| TagParser.IntegerField | src/parser.ts:58-61 | An integer field is the value of its digits, all other characters dropped. It is never null, and text without digits reads as 0. |
| TagParser.YesNoField | src/parser.ts:63-68 | A yes/no field is true exactly when the lowered text contains "yes". It is false exactly when the text contains "no" but not "yes", and null otherwise. |
| TagParser.StringField | src/parser.ts:70-72 | A string field is null exactly when its text is empty, and is that text otherwise. |
| TagParser.ReadFields | src/parser.ts:46-74 | The loop assigns one value per parameter, in order, into an empty object. |
| TagParser.ReadFieldsSpec | src/parser.ts:46-74 | When the parameter keys are distinct, the object holds exactly those keys in order, and each key holds its own parameter's value. |
| TagParser.Start | src/parser.ts:31-77 | `start` returns `StartSpec`: null, or the object of converted fields read from the split fragments. |
| TagParser.StartNullIff | src/parser.ts:32-36 | `start` returns null exactly when the block name does not occur, or when only white space follows its first occurrence. |
| KeyScan.Exec | src/main.ts:65 | One `exec` returns the first position from `from` on where a key, `:`, optional white space and a non-space run match. Nothing to scan is lost on the way. |
| KeyScan.ExecLoop | src/main.ts:63-65 | The exec loop fills the record with every match, assigned in order. |
| KeyScan.HitShape | src/main.ts:64 | A match starts with one of the keys followed by `:`, and captures a non-empty run without white space. |
| KeyScan.ColonValueShape | src/main.ts:64 | After the colon, the optional white space is skipped, and the captured value is the maximal non-space run. |
| KeyScan.ScanEntries | src/main.ts:64-65 | Every recorded entry has one of the keys and a non-empty value without white space. |
| KeyScan.CollectLastWins | src/main.ts:63-65 | The record has distinct keys, each holding the value of its last match, and only keys of the pattern appear. |
| Snippet.TimeOf | src/main.ts:91-95 | Text without a colon is read whole with `Number`, as the seconds. |
| Snippet.ParseTime | src/main.ts:91-95 | The `unshift` loop gives `TimeOf(t)`. |
| Snippet.TimeOfPadsLeft | src/main.ts:92-94 | One or two fields are padded on the left with zeros, and the time is `h*3600 + m*60 + s`. |
| Snippet.HMS | src/main.ts:94 | The time is a number exactly when all three fields are. |
| Snippet.Pad | src/main.ts:96 | The padded text has at least two characters and ends with the number's decimal text. |
| Snippet.PadReads | src/main.ts:96 | A padded integer reads back with `Number` and holds no colon or white space. |
| Snippet.FormatTime | src/main.ts:97-98 | With the hours kept whole, a formatted time always has three colon-separated fields. |
| Snippet.FormatTimeAsWritten | src/main.ts:97-98 | As written, a formatted time also always has three colon-separated fields. |
| Snippet.FormatTimeFields | src/main.ts:96-98 | For non-negative seconds `v`, the three fields each have at least two digits. They read as `v / 3600`, the minutes `v % 3600 / 60` below 60, and the seconds `v % 60` below 60. |
| Snippet.TimeOfFormatTime | src/main.ts:91-98 | `parseTime(formatTime(s)) == s` for every integer and for NaN, when the hours are kept whole. |
| Snippet.FormatTimeAgrees | src/main.ts:97-98 | `formatTime` as written agrees with the corrected one whenever the hours fit in 32 bits. |
| Snippet.TimeOfFormatTimeAsWritten | src/main.ts:97-98 | As written, the round trip gives the hours wrapped to 32 bits, times 3600, plus the rest. |
| Snippet.FormatTimeWrapsHours | src/main.ts:98 | At 2^31 hours, the round trip as written returns minus that many seconds; the corrected one returns the input. |
| Snippet.FormatTimeIsPlain | src/main.ts:97-98 | A formatted time is non-empty and holds no white space, so the snippet scan reads it whole. |
| Snippet.ParseSnippet | src/main.ts:59-74 | The scan and the defaulting give `ParseSnippetSpec`. |
| Snippet.ParseSnippetLastWins | src/main.ts:63-73 | Each field comes from its key's last match. The defaults are: id "", passed 0, the settings' limit, and no name. `running` holds exactly when the value is "yes". |
| Snippet.StringifySnippet | src/main.ts:80-88 | Built on the corrected `Snippet.FormatTime`. The output is "stopwatch", then the labelled pairs of the spec, joined by single spaces. |
| Snippet.WritePairs | src/main.ts:81-87 | Built on the corrected `Snippet.FormatTime`, the pushes write `key:value` parts in the order id, passed, limit, name, running. |
| Snippet.PairsLookups | src/main.ts:82-86 | id and name are present only when non-empty. passed, limit and running are always present. Every key is written once. |
| Snippet.ParseStringify | src/main.ts:59-88 | With the corrected `Snippet.FormatTime`, parsing the written snippet gives the spec back (an empty name comes back absent) whenever id and name hold no white space. |
| SpecString.TimeOf | main.js:33-39 | Text without a colon is read whole with `parseInt`, as the seconds. |
| SpecString.ParseTime | main.js:33-39 | The `unshift` loop gives `TimeOf(t)` with `parseInt` fields. |
| SpecString.TimeOfPadsLeft | main.js:34-38 | Missing fields are padded on the left with zeros, and a numeric time has numeric fields. |
| SpecString.PadReads | main.js:41-43 | A padded integer reads back with `parseInt` and holds no colon or white space. |
| SpecString.FormatTime | main.js:40-45 | A formatted time always has three colon-separated fields. |
| SpecString.FormatTimeFields | main.js:40-45 | For non-negative seconds `v`, the three fields each have at least two digits. They read as `v / 3600`, the minutes below 60 and the seconds below 60. |
| SpecString.TimeOfFormatTime | main.js:33-45 | `parseTime(formatTime(s)) == s` for every non-negative integer. |
| SpecString.TimeOfFormatTimeNaN | main.js:33-45 | NaN seconds read back as NaN. |
| SpecString.FormatTimeNaNText | main.js:40-45 | NaN seconds are written "NaN:NaN:NaN". |
| SpecString.TimeOfFormatTimeNegative | main.js:40-45 | -1 second is written so that it reads back as -3661: the round trip needs non-negative input. |
| SpecString.FormatTimeIsPlain | main.js:40-45 | A formatted time is non-empty and holds no white space. |
| SpecString.ParseSpec | main.js:20-32 | The scan and the defaulting give `ParsedOf`. |
| SpecString.ParseSpecLastWins | main.js:21-31 | Only name, passed and limit are recorded, each from its last match. passed defaults to 0 and limit stays undefined. `hasPassed` holds exactly when some `passed:` matched. |
| SpecString.RecordPassed | main.js:53 | Overwriting `passed` keeps name and limit, and sets passed to the formatted time. |
| SpecString.BuildSpecString | main.js:46-61 | The scan, the overwrite and the appends give `BuildSpecText`. |
| SpecString.WriteParts | main.js:54-60 | The appends write "stopwatch", then name, passed, limit with ": " separators. |
| SpecString.WrittenText | main.js:54-60 | name and limit appear only when recorded and non-empty, and passed always appears. |
| SpecString.ParseBuild | main.js:20-61 | Parsing the rebuilt snippet keeps the original's name and limit, reads passed as the formatted time, and sets `hasPassed`. |
| SpecString.ParseBuildPassed | main.js:20-61 | For non-negative or NaN seconds, the rebuilt snippet reads back exactly those seconds. |
| SpecString.BuildIdempotent | main.js:46-61 | Rebuilding a rebuilt snippet with the same seconds changes nothing, so the text the plugin remembers after a save is stable. |
| Ids.NewIdAsWritten | src/stopwatch.ts:171-176 | As written, the id is a decimal numeral or "NaN". |
| Ids.NewId | src/stopwatch.ts:171-176 | The corrected id is always a decimal numeral. |
| Ids.MaxOfBounds | src/stopwatch.ts:174 | `Math.max` is NaN exactly when some entry is. Otherwise it is one of the entries and bounds them all. |
| Ids.NewIdFresh | src/stopwatch.ts:171-176 | The corrected id is numeric, above every key `parseInt` reads, and not a key already. |
| Ids.NewIdAgrees | src/stopwatch.ts:171-176 | When every key is numeric, `newId` as written and the corrected one agree. |
| Ids.MaxOfReadable | src/stopwatch.ts:174 | On numeric keys, `Math.max` of the parsed keys is their integer maximum. |
| Ids.NewIdAsWrittenNaN | src/stopwatch.ts:174-175 | One key `parseInt` cannot read makes `newId` as written return "NaN". |
| Ids.NewIdAsWrittenCollides | src/trash/tagManager.ts:167-172 | With the keys "abc" and "NaN", `newId` as written returns a key already taken; the corrected one does not. |
| Stopwatch.CompleteData | src/stopwatch.ts:147-159 | Data the schema accepted completes to valid data. A missing id is allocated with the corrected `Ids.NewId`, with which `newId` as written agrees on the registry `makeTag` leaves empty. |
| Stopwatch.Toggled | src/stopwatch.ts:37-48 | A toggle flips running, sets startDate to "0", and keeps name, limit and id. |
| Stopwatch.NowAsWritten | src/utils.ts:3-5 | `Number` of any timestamp that holds a colon, as every ISO 8601 time does, is NaN. |
| Stopwatch.CompleteDataValid | src/stopwatch.ts:147-159 | Completing data the schema accepted (a positive integer limit, a non-negative integer passed) gives data that satisfies the same constraints. |
| Stopwatch.CompleteDataId | src/stopwatch.ts:151 | The id is the parsed one when given. Otherwise it is a new id not in the registry, which is "1" for an empty registry. |
| Stopwatch.ToggledKeeps | src/stopwatch.ts:37-48 | `callback` flips running, sets startDate to "0", and keeps name, limit and id; two callbacks restore the flag. |
| Stopwatch.ToggledAsWrittenIsNaN | src/utils.ts:3-5 | The clock as written reads an ISO timestamp through `Number`, which is NaN. So `callback` stores NaN as the passed time, which the schema rejects. |
| Stopwatch.ToggledKeepsValid | src/stopwatch.ts:44 | With a numeric clock at or after the start date, `callback` keeps the data valid and stores the elapsed difference. |
| Stopwatch.Tag.constructor | src/stopwatch.ts:20-23 | A tag holds the data it was built with. |
| Stopwatch.Tag.Callback | src/stopwatch.ts:37-48 | The new data is the old data after one toggle at the given clock reading. |
| Stopwatch.TagManager.constructor | src/stopwatch.ts:134 | A manager starts with an empty registry. |
| Stopwatch.TagManager.MakeTag | src/stopwatch.ts:162-169 | The new tag holds the data completed against the registry's keys, and the registry is left unchanged. |
| Stopwatch.MakeTagIdIsOne | src/stopwatch.ts:162-176 | Since `makeTag` never registers its tag, a tag without a parsed id always gets "1". |
| LegacyTags.Defaulted | src/trash/tagManager.ts:38-42 | With no parsed field, the tag is the default. With every field parsed, the tag is the parsed data. |
| LegacyTags.Tag.constructor | src/trash/tagManager.ts:32-44 | Each field is the parsed value unless that is null, in which case it is the default. |
| LegacyTags.FinalId | src/trash/tagManager.ts:152-157 | The filing id is never a key already, nor a name the `{}` registry inherits from `Object.prototype` (such as "constructor"). A non-empty parsed id that is neither is kept. Any other block gets the corrected `Ids.NewId`. |
| LegacyTags.NewIdNotInherited | src/trash/tagManager.ts:155-156 | An allocated id is a numeral, so it is never an inherited name. |
| LegacyTags.FinalIdAsWrittenOverwrites | src/trash/tagManager.ts:155-159 | With `newId` as written, a block without an id is filed under "NaN" and replaces the tag stored there. The corrected allocation adds an entry. |
| LegacyTags.AllocateDistinct | src/trash/tagManager.ts:147-164 | Over a whole run of `parse`, the keys stay distinct: no two tags ever share an id. |
| LegacyTags.FirstAllocation | src/trash/tagManager.ts:152-156 | On an empty registry, a block keeps a non-empty id that is not an inherited name. Any other block gets "1". |
| LegacyTags.TagManager.constructor | src/trash/tagManager.ts:134 | A manager starts with an empty registry. |
| LegacyTags.TagManager.File | src/trash/tagManager.ts:151-160 | The tag is filed under its final id (allocated with the corrected `Ids.NewId`), after the entries already there. It holds the parsed data under that id, with the defaults filled in. |
| LegacyTags.TagManager.Visit | src/trash/tagManager.ts:149-161 | A block that `start` recognises is filed and appended to the result. Any other block is passed over. |
| LegacyTags.TagManager.Parse | src/trash/tagManager.ts:144-165 | The recognised blocks become tags, in order, each under its id from the corrected `Ids.NewId` after the existing keys. Existing entries are kept, and the result lists the new tags in order. As written, a later block can replace an entry filed under "NaN" (`LegacyTags.FinalIdAsWrittenOverwrites`). |
| Records.AssignLookup | src/main.ts:65 | After `rec[k] = v`, `k` holds `v` and every other key holds what it held. |
| Records.AssignAllLastWriteWins | src/TagSyntaxHandler.ts:151-157 | After a run of assignments, the keys stay distinct, and a key holds its last write, or its old value when it was never written. |
| Numbers.TMod | src/main.ts:98 | JavaScript's `%` on integers: `a == q*d + r`, with the remainder taking the sign of `a` and lying strictly within `d` of zero. |
| Numbers.ToInt32InRange | src/main.ts:98 | A bitwise or with zero leaves values in the signed 32-bit range unchanged. |
| Numbers.PadStart2 | src/main.ts:96 | `padStart(2, "0")` keeps the text at the end and fills up to two characters with zeros. |
| Numbers.NatToStringValue | src/TagSyntaxHandler.ts:192 | The decimal text of a natural number reads back as that number. |
| Numbers.ParseIntOfIntToString | main.js:34 | `parseInt` reads back the text, padded or not, that `toString` writes for an integer. |
| Numbers.NumberOfIntToString | src/main.ts:92 | `Number` reads back the text, padded or not, that `toString` writes for an integer. |
| Numbers.NumberOfWithColon | src/utils.ts:4 | `Number` of a text that holds a colon is NaN. |

## Left out

- The DOM and the Obsidian API are left out. Their code builds elements, replaces code spans and draws the progress bar:
  - `buildStopwatchUI`, `renderStopwatch` and `createStopwatch`;
  - `Tag.draw`, `buildButton` and `buildIsland` in both versions;
  - `TagManager.draw`, `write` and `print`;
  - the plugin's `onload` and settings.
  - Each `Tag` keeps its data but not its element.
- Timers, the clock and asynchronous work are left out: `setInterval`, `Date.now`, `tick`, `TagManager.start`/`update` and `waitForIn`. The clock becomes an integer parameter of `Stopwatch.Tag.Callback`.
- Vault reads and writes in `updatePassedInFile`, including the text replacement of the old snippet, are left out. Only `buildSpecString`, which that code calls, is modelled.
- The `zod` schema and its error messages are outside the model:
  - `TagSyntax.Parse` takes the validator as a function parameter.
  - The number constraints of `stopwatchSchema` are the predicates `Stopwatch.Accepted` and `Stopwatch.Valid`.
  - The string and enum constraints are carried by the Dafny types.
- Floating point is left out. Numbers are integers or NaN:
  - `Number` accepts an optional sign and digits, and blank text reads as 0. Fractions, exponents, hexadecimal and `Infinity` read as NaN.
  - Fractional seconds, the `progress` percentages, and doubles' loss of precision above 2^53 are not modelled.
- TagParser.SplitAtTag: tag names are matched literally. The source builds its look-ahead as a regular expression from the unescaped tag name, so a name holding `.`, `+`, `(`, `|` or `\` splits differently there: with the tag `a.b`, a cut also falls before `axb:`. The `find` that reads the fields compares literally in both. The plugin's own tag names are plain words.
- TagParser.IntegerField: a digit run long enough to overflow a double reads as `Infinity` in JavaScript, and `Number.isFinite` then makes the field null. The model's integers are unbounded, so such a field keeps its value.
- The order of object keys is insertion order in the model. JavaScript lists integer-like keys first, in numeric order, in `Object.entries`, `Object.keys` and `Object.values`. This affects:
  - the order of entries in `parseTag` and `render`;
  - the order of keys in `newId`, which is irrelevant to a maximum.
- LegacyTags.TagManager.Parse: the blocks are given as the texts of the code elements. The element search is left out, and so is a `null` `textContent` (read as "" in the source).
- Stopwatch.Tag.Callback: the source passes `this.callback` to `addEventListener` unbound, so in the browser `this` is the button and the call fails. The model calls it as a method of the tag. Its clock is an integer, not the broken `now()`, which is modelled separately by `Stopwatch.NowAsWritten`.
- SpecString.ParseBuildPassed requires non-negative or NaN seconds. For negative seconds, `main.js`'s `formatTime` floors the hours, and the text reads back as a different number (`SpecString.TimeOfFormatTimeNegative`).
- Snippet.StringifySnippet, Snippet.WritePairs and Snippet.ParseStringify use the corrected `formatTime`. For a `passed` or `limit` of 2^31 hours or more, `src/main.ts` as written writes wrapped hours instead (`Snippet.FormatTimeWrapsHours`).
- LegacyTags.FinalId, LegacyTags.TagManager.File and LegacyTags.TagManager.Parse use the corrected `newId`. As written, once a registry key is not numeric, every block without an id is filed under "NaN" and replaces the previous one (`LegacyTags.FinalIdAsWrittenOverwrites`).
- Stopwatch.CompleteData uses the corrected `newId`. `makeTag` never registers a tag, so the registry stays empty and both versions give "1" (`Stopwatch.MakeTagIdIsOne`).
- TagSyntax.Parse: a stack overflow from deeply nested braces and a throw from the validator's error formatting would both land in `parse`'s `catch`. Neither is modelled, so the model's `parse` never returns "Error".
- `Tag.stringify` in `src/trash/tagManager.ts` is left out: it writes an object's `toString`, "[object Object]", and is not a serializer.
- `write` does not round-trip with `parse` in general, and no such property is claimed:
  - `stripQuotes` does not undo the escaping;
  - `null` comes back as the string "null";
  - strings holding braces or `word:` split differently.
- `write` accepts numbers, strings, booleans, null, undefined, objects and arrays. Functions, symbols and big integers are not modelled.

## Findings

| source | as written | input that shows it | evidently intended | confidence | as-written member | corrected member |
|---|---|---|---|---|---|---|
| src/main.ts:97-98 | `formatTime` puts the hours through a bitwise or with zero, which wraps them into the signed 32-bit range | 2^31 hours (7730941132800 seconds) is written as -2147483648 hours | whole hours, so that `parseTime(formatTime(s)) == s` | not executed | Snippet.FormatTimeAsWritten (Snippet.FormatTimeWrapsHours, Snippet.TimeOfFormatTimeAsWritten) | Snippet.FormatTime (Snippet.TimeOfFormatTime, Snippet.StringifySnippet, Snippet.WritePairs, Snippet.ParseStringify) |
| src/utils.ts:3-5 | `now()` is `Number` of an ISO 8601 timestamp, which is NaN; `Tag.callback` stores `now() - Number(startDate)` as the passed time | any timestamp, such as "2024-01-01T00:00:00.000Z", holds a colon | a numeric clock, so that the passed time is the elapsed seconds | not executed | Stopwatch.NowAsWritten (Stopwatch.ToggledAsWrittenIsNaN) | Stopwatch.Tag.Callback (Stopwatch.ToggledKeepsValid) |
| src/trash/tagManager.ts:167-172 | `newId` takes `Math.max` over `parseInt` of all keys; one non-numeric key makes the id "NaN" | registry keys "abc" and "NaN": a block without an id is filed under "NaN" and replaces the tag stored there | an id no tag holds | not executed | Ids.NewIdAsWritten (Ids.NewIdAsWrittenCollides, LegacyTags.FinalIdAsWrittenOverwrites) | Ids.NewId (Ids.NewIdFresh, LegacyTags.AllocateDistinct, LegacyTags.FinalId, LegacyTags.TagManager.File, LegacyTags.TagManager.Parse, Stopwatch.CompleteData) |
