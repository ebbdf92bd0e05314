# Byte and string tokenizers, and the phrase-frequency job

This project models the tokenizers and the phrase-counting core of the
`cn.wuyijun` challenge code.

- **ByteTokenizer** is a cursor over a byte array with one delimiter byte.
  Runs of the delimiter collapse. Each token is handed out as a zero-copy
  view, modelled as a `Span(offset, length)`. Running out gives
  `NoSuchElementException`, modelled as a `NoSuchElement` result.
- **ByteTwoLevelsTokenizer** scans a byte array with two delimiters. A
  level-1 byte ends a record and a level-2 byte separates fields. Each
  `nextToken` call returns the field views of one record.
- **CustomStringTokenizer** is a copy of `java.util.StringTokenizer` over
  a custom character sequence. It has an optional `retDelims` mode, in which
  each delimiter character comes back as a token of its own. `hasMoreElements`
  caches the skip position for the next `nextToken` call.
- **RFQWords.doJob**, its algorithmic part only:
  - it builds a dictionary of trimmed phrases, split on `,`;
  - it measures the longest phrase in words (`maxWordsLen`);
  - for every sentence (trimmed, lower-cased, split on `' '`) and every
    start word, it grows windows of 1..`maxWordsLen` words joined by single
    spaces, and counts the windows that are dictionary phrases;
  - it lays the counts out as key, `","`, count, line-separator elements.

Module `Scanning` holds the scanning specification shared by all four:
- skip a run of delimiters;
- scan to the next delimiter;
- the list of tokens that successive `nextToken` calls hand out from a cursor;
- `Join` of words with one separator.

The classes keep the source's fields. Their cursors are mutable fields that
the methods change (`modifies`). The scanned array is a `const array<bv8>`,
and no method may write it. Every method is proved against those functions.

The parallel stream, the `ConcurrentHashMap` and the `AtomicInteger`s of
`doJob` are modelled as a sequential fold into a `map<string, nat>`.
`TallyPermutation` proves that the result does not depend on the order in
which sentences are processed. `java.util.StringTokenizer` is modelled by
the same `Scanning.Tokens`. `CustomStringTokenizers.StrTokensPlain` shows
that this is exactly what the copy in `CustomStringTokenizer.java` does
without `retDelims`.

Behaviour worth knowing:
- Only sentences are lower-cased (`RFQWords.java:59`); dictionary phrases
  are only trimmed (`RFQWords.java:43`). A phrase holding an upper-case
  letter is therefore never counted, even when a sentence holds the same
  words (`RFQWords.UpperCasePhraseNeverCounted`).
- The dictionary and the sentences are split with `java.util.StringTokenizer`
  on `,`, not with the two-level byte tokenizer.
- `ByteTwoLevelsTokenizer.nextToken` never throws. When no field byte is
  left it returns an empty list. The `NoSuchElementException` in
  `nextL2Token` is unreachable from `nextToken`
  (`ByteTwoLevelsTokenizers.StepInBounds`).
- `ByteTwoLevelsTokenizer.countTokens` counts fields over both delimiters,
  not records (`ByteTwoLevelsTokenizers.EmptyRecordCountExample`).
- When the two delimiter bytes are the same, `skipL2Delimiters` also skips
  every level-1 byte, so a record never ends early. The first `nextToken`
  call returns all remaining fields as one record
  (`ByteTwoLevelsTokenizers.SameDelimitersOneRecord`).

## Model

| member | source | states |
|---|---|---|
| Scanning.SkipFrom | src/main/java/cn/wuyijun/ByteTokenizer.java:137-147 | the first position at or after the start that holds no delimiter, or the end; every position skipped holds a delimiter |
| Scanning.ScanFrom | src/main/java/cn/wuyijun/ByteTokenizer.java:153-162 | the first delimiter position at or after the start, or the end; every position passed holds no delimiter |
| Scanning.Tokens | src/main/java/cn/wuyijun/ByteTokenizer.java:81-92 | the tokens successive nextToken calls hand out from a cursor lie inside the buffer and at or after the cursor |
| Scanning.TokensWellFormed | src/main/java/cn/wuyijun/ByteTokenizer.java:81-92 | every token is non-empty and delimiter-free, and ends at a delimiter or the buffer end; tokens are strictly ordered with a delimiter between neighbours |
| Scanning.TokensCover | src/main/java/cn/wuyijun/ByteTokenizer.java:81-92 | every non-delimiter position at or after the cursor lies inside some token: no byte is lost |
| Scanning.TokensOverDelimiters | src/main/java/cn/wuyijun/ByteTokenizer.java:137-147 | moving the cursor over delimiters changes neither the skip position nor the tokens |
| Scanning.TokensFromSkip | src/main/java/cn/wuyijun/ByteTokenizer.java:122-128 | the tokens from the skip position are the tokens from the cursor |
| Scanning.TokenElements | src/main/java/cn/wuyijun/ByteTokenizer.java:81-92 | every token's content is non-empty and made of non-delimiter elements of the buffer |
| Scanning.JoinThenScan | src/main/java/cn/wuyijun/RFQWords.java:62-66 | non-empty delimiter-free words joined by one delimiter split back into exactly those words |
| Scanning.RoundTrip | src/main/java/cn/wuyijun/RFQWords.java:60-66 | joining a text's tokens with one delimiter and splitting again gives the same tokens |
| ByteTokenizers.ByteTokenizer.constructor | src/main/java/cn/wuyijun/ByteTokenizer.java:40-45 | the cursor is at 0 and the remaining tokens are all tokens of the array |
| ByteTokenizers.ByteTokenizer.HasMoreTokens | src/main/java/cn/wuyijun/ByteTokenizer.java:55-58 | true iff some byte at or after the cursor is not the delimiter, iff a token remains; the cursor does not move |
| ByteTokenizers.ByteTokenizer.NextToken | src/main/java/cn/wuyijun/ByteTokenizer.java:81-92 | NoSuchElement iff no token remains, with the cursor at the end; otherwise the first remaining token, a well-formed token, with the cursor just past it and the rest remaining |
| ByteTokenizers.ByteTokenizer.CountTokens | src/main/java/cn/wuyijun/ByteTokenizer.java:119-131 | the number of tokens remaining; the cursor does not move |
| ByteTokenizers.ByteTokenizer.SkipDelimiters | src/main/java/cn/wuyijun/ByteTokenizer.java:137-147 | the loop computes the skip position SkipFrom |
| ByteTokenizers.ByteTokenizer.ScanToken | src/main/java/cn/wuyijun/ByteTokenizer.java:153-162 | the loop computes the scan position ScanFrom |
| ByteTokenizers.ByteTokenizer.IsDelimiter | src/main/java/cn/wuyijun/ByteTokenizer.java:164-166 | the byte test of the skip and scan loops holds exactly when the byte is in the delimiter set that SkipFrom and ScanFrom use |
| ByteTokenizers.DemoTokens | src/main/java/cn/wuyijun/ByteTokenizerTest.java:23-38 | the demonstration array split on 0x80 has three tokens at offsets 0, 3 and 9; 0xC0 is an ordinary byte |
| ByteTokenizers.DemoContents | src/main/java/cn/wuyijun/ByteTokenizerTest.java:23-45 | the three demonstration tokens hold 31 C0, 64 75 79 64 C0 and 39 |
| ByteTokenizers.CountThenDrain | src/main/java/cn/wuyijun/ByteTokenizerTest.java:35-45 | counting and then draining with hasMoreTokens/nextToken yields all tokens in order, and the count equals their number |
| ByteTwoLevelsTokenizers.L2StepFrom | src/main/java/cn/wuyijun/ByteTwoLevelsTokenizer.java:108-122 | one field step leaves the cursor at or after where it started and inside the array |
| ByteTwoLevelsTokenizers.L2StepShape | src/main/java/cn/wuyijun/ByteTwoLevelsTokenizer.java:108-122 | the step is out of bounds exactly when only level-2 bytes remain; otherwise it passes only level-2 bytes and then either consumes a level-1 byte, or takes a field that is a token over both delimiters and leaves the cursor at its end |
| ByteTwoLevelsTokenizers.HasMoreMeans | src/main/java/cn/wuyijun/ByteTwoLevelsTokenizer.java:56-59 | the hasMoreTokens condition holds exactly when some byte from the cursor is neither delimiter, and exactly when a flat token over both delimiters remains |
| ByteTwoLevelsTokenizers.StepInBounds | src/main/java/cn/wuyijun/ByteTwoLevelsTokenizer.java:108-122 | a field step taken while hasMoreTokens holds never reaches the NoSuchElementException, and it advances the cursor |
| ByteTwoLevelsTokenizers.NextRecord | src/main/java/cn/wuyijun/ByteTwoLevelsTokenizer.java:82-93 | one record's fields and the cursor after it; the cursor never moves back and moves while a field byte remains |
| ByteTwoLevelsTokenizers.NextRecordIsTokenPrefix | src/main/java/cn/wuyijun/ByteTwoLevelsTokenizer.java:82-122 | a record's fields are exactly the flat tokens over both delimiters up to where the record leaves the cursor |
| ByteTwoLevelsTokenizers.Records | src/main/java/cn/wuyijun/ByteTwoLevelsTokenizer.java:82-93 | successive nextToken calls while hasMoreTokens holds hand out at least one record exactly when some field byte remains |
| ByteTwoLevelsTokenizers.RecordsFlatten | src/main/java/cn/wuyijun/ByteTwoLevelsTokenizer.java:82-93 | the field lists of all records, concatenated, are the flat tokens over both delimiters |
| ByteTwoLevelsTokenizers.FieldsWellFormed | src/main/java/cn/wuyijun/ByteTwoLevelsTokenizer.java:116-121 | every field is non-empty, in bounds and free of both delimiter bytes |
| ByteTwoLevelsTokenizers.RecordEnds | src/main/java/cn/wuyijun/ByteTwoLevelsTokenizer.java:84-92 | a record stops only when no field byte is left, or just past a level-1 byte it consumed |
| ByteTwoLevelsTokenizers.RecordStopsAtFirstL1 | src/main/java/cn/wuyijun/ByteTwoLevelsTokenizer.java:84-92 | with two different delimiter bytes, no byte the record passes before its last one is a level-1 byte: the record stops at the first level-1 byte it meets |
| ByteTwoLevelsTokenizers.SameDelimitersOneRecord | src/main/java/cn/wuyijun/ByteTwoLevelsTokenizer.java:179-189 | when both delimiters are the same byte, one record holds all the remaining flat tokens and no field byte is left after it |
| ByteTwoLevelsTokenizers.ByteTwoLevelsTokenizer.constructor | src/main/java/cn/wuyijun/ByteTwoLevelsTokenizer.java:40-46 | the cursor is at 0 over the given array and delimiters |
| ByteTwoLevelsTokenizers.ByteTwoLevelsTokenizer.HasMoreTokens | src/main/java/cn/wuyijun/ByteTwoLevelsTokenizer.java:56-59 | true iff some byte at or after the cursor is neither delimiter |
| ByteTwoLevelsTokenizers.ByteTwoLevelsTokenizer.NextToken | src/main/java/cn/wuyijun/ByteTwoLevelsTokenizer.java:82-93 | the loop returns the fields of the record at the cursor and leaves the cursor where the record ends |
| ByteTwoLevelsTokenizers.ByteTwoLevelsTokenizer.NextL2Token | src/main/java/cn/wuyijun/ByteTwoLevelsTokenizer.java:108-122 | skip level-2 bytes; out of bounds at the end, a consumed level-1 byte ends the record, otherwise a field up to the next delimiter of either level |
| ByteTwoLevelsTokenizers.ByteTwoLevelsTokenizer.CountTokens | src/main/java/cn/wuyijun/ByteTwoLevelsTokenizer.java:149-161 | the number of flat tokens over both delimiters from the cursor |
| ByteTwoLevelsTokenizers.ByteTwoLevelsTokenizer.SkipDelimiters | src/main/java/cn/wuyijun/ByteTwoLevelsTokenizer.java:167-177 | the skip position over both delimiters |
| ByteTwoLevelsTokenizers.ByteTwoLevelsTokenizer.SkipL2Delimiters | src/main/java/cn/wuyijun/ByteTwoLevelsTokenizer.java:179-189 | the skip position over the level-2 delimiter alone |
| ByteTwoLevelsTokenizers.ByteTwoLevelsTokenizer.ScanToken | src/main/java/cn/wuyijun/ByteTwoLevelsTokenizer.java:195-204 | the next position holding either delimiter, or the end |
| ByteTwoLevelsTokenizers.ByteTwoLevelsTokenizer.IsDelimiter | src/main/java/cn/wuyijun/ByteTwoLevelsTokenizer.java:206-208 | the byte test of the skip and scan loops holds exactly when the byte is one of the two delimiters |
| ByteTwoLevelsTokenizers.ByteTwoLevelsTokenizer.IsL2Delimiter | src/main/java/cn/wuyijun/ByteTwoLevelsTokenizer.java:209-211 | the byte test of the level-2 skip holds exactly when the byte is the level-2 delimiter |
| ByteTwoLevelsTokenizers.TwoRecordsExample | src/main/java/cn/wuyijun/ByteTwoLevelsTokenizer.java:82-93 | "a b,c" with ',' and ' ' gives the records [a, b] and [c] |
| ByteTwoLevelsTokenizers.EmptyRecordExample | src/main/java/cn/wuyijun/ByteTwoLevelsTokenizer.java:82-93 | "a,,b" gives the records [a], [] and [b]: an empty record comes back as an empty list |
| ByteTwoLevelsTokenizers.EmptyRecordCountExample | src/main/java/cn/wuyijun/ByteTwoLevelsTokenizer.java:149-161 | countTokens on "a,,b" is 2: it counts fields, not the three records |
| CustomStringTokenizers.IndexOf | src/main/java/cn/wuyijun/CustomStringTokenizer.java:52 | the first index holding the character, or -1 when none does |
| CustomStringTokenizers.MaxCode | src/main/java/cn/wuyijun/CustomStringTokenizer.java:23-31 | at least 0, at least every delimiter's code, and either 0 or the code of some delimiter |
| CustomStringTokenizers.IsDelim | src/main/java/cn/wuyijun/CustomStringTokenizer.java:67 | the bound-then-indexOf test never accepts a character that is not a delimiter, whatever the bound |
| CustomStringTokenizers.IsDelimExact | src/main/java/cn/wuyijun/CustomStringTokenizer.java:63-68 | with the bound set to MaxCode, the bound-then-indexOf test holds exactly for delimiter characters |
| CustomStringTokenizers.SkipPos | src/main/java/cn/wuyijun/CustomStringTokenizer.java:48-57 | where a token search starts: the cursor itself in retDelims mode, past the delimiter run otherwise |
| CustomStringTokenizers.ScanPos | src/main/java/cn/wuyijun/CustomStringTokenizer.java:63-77 | where a token ends; the token is non-empty whenever it starts on a non-delimiter or in retDelims mode |
| CustomStringTokenizers.StrTokens | src/main/java/cn/wuyijun/CustomStringTokenizer.java:79-92 | the tokens successive nextToken calls hand out lie inside the string |
| CustomStringTokenizers.StrTokensPlain | src/main/java/cn/wuyijun/CustomStringTokenizer.java:48-92 | without retDelims the tokenizer hands out exactly the delimiter-separated tokens |
| CustomStringTokenizers.RetDelimsTokens | src/main/java/cn/wuyijun/CustomStringTokenizer.java:71-75 | in retDelims mode every token is a single delimiter character, or a non-empty delimiter-free run ended by a delimiter or the end of the string |
| CustomStringTokenizers.RetDelimsCover | src/main/java/cn/wuyijun/CustomStringTokenizer.java:63-92 | in retDelims mode the tokens concatenate back to the rest of the string |
| CustomStringTokenizers.RetDelimsExample | src/main/java/cn/wuyijun/CustomStringTokenizer.java:71-75 | "a,b" on ',' gives a, b; with retDelims it gives a, ",", b |
| CustomStringTokenizers.CustomStringTokenizer.constructor | src/main/java/cn/wuyijun/CustomStringTokenizer.java:33-42 | cursor 0, no cached position, the given string, delimiters and mode, and the delimiter bound set |
| CustomStringTokenizers.CustomStringTokenizer.WithoutDelims | src/main/java/cn/wuyijun/CustomStringTokenizer.java:44-46 | the same with retDelims false |
| CustomStringTokenizers.CustomStringTokenizer.SetMaxDelimCodePoint | src/main/java/cn/wuyijun/CustomStringTokenizer.java:23-31 | the loop leaves the largest delimiter code, MaxCode |
| CustomStringTokenizers.CustomStringTokenizer.SkipDelimiters | src/main/java/cn/wuyijun/CustomStringTokenizer.java:48-57 | the loop computes SkipPos |
| CustomStringTokenizers.CustomStringTokenizer.ScanToken | src/main/java/cn/wuyijun/CustomStringTokenizer.java:63-77 | the loop and the retDelims step compute ScanPos |
| CustomStringTokenizers.CustomStringTokenizer.NextToken | src/main/java/cn/wuyijun/CustomStringTokenizer.java:79-92 | the cache is cleared; NoSuchElement iff no token remains, with the cursor at the end; otherwise the text of the first remaining token, with the cursor at its end and the rest remaining |
| CustomStringTokenizers.CustomStringTokenizer.NextElement | src/main/java/cn/wuyijun/CustomStringTokenizer.java:99-101 | the same as NextToken |
| CustomStringTokenizers.CustomStringTokenizer.HasMoreElements | src/main/java/cn/wuyijun/CustomStringTokenizer.java:94-97 | caches the skip position; true iff a token remains |
| CustomStringTokenizers.CustomStringTokenizer.CountTokens | src/main/java/cn/wuyijun/CustomStringTokenizer.java:103-114 | the number of tokens remaining; nothing changes |
| RFQWords.TrimLo | src/main/java/cn/wuyijun/RFQWords.java:43 | String.trim's start: every character before it is at most U+0020 and the one at it is above |
| RFQWords.TrimHi | src/main/java/cn/wuyijun/RFQWords.java:43 | String.trim's end: every character after it is at most U+0020 and the one before it is above |
| RFQWords.Trim | src/main/java/cn/wuyijun/RFQWords.java:43 | the trimmed string is no longer than the string, and is empty or starts and ends with a character above U+0020 |
| RFQWords.TrimShape | src/main/java/cn/wuyijun/RFQWords.java:43 | the trimmed string is one contiguous piece, neither starting nor ending with a character up to U+0020, with only such characters dropped around it |
| RFQWords.TrimIdempotent | src/main/java/cn/wuyijun/RFQWords.java:43 | trimming twice is trimming once |
| RFQWords.LowerChar | src/main/java/cn/wuyijun/RFQWords.java:59 | an upper-case ASCII letter becomes its lower-case letter, any other character stays; the result is never upper-case |
| RFQWords.ToLower | src/main/java/cn/wuyijun/RFQWords.java:59 | same length, each character lower-cased by LowerChar, and no upper-case letter left |
| RFQWords.Split | src/main/java/cn/wuyijun/RFQWords.java:41 | every token of a StringTokenizer split on one character is non-empty, free of that character and made of characters of the string |
| RFQWords.WordCount | src/main/java/cn/wuyijun/RFQWords.java:49 | countTokens on " " is the number of split words, and 0 exactly when the phrase holds only spaces |
| RFQWords.Phrases | src/main/java/cn/wuyijun/RFQWords.java:41-44 | every trimmed record is in the dictionary, and every dictionary phrase is some trimmed record |
| RFQWords.PhrasesShape | src/main/java/cn/wuyijun/RFQWords.java:41-44 | every phrase is trimmed and holds no ','; duplicates collapse, so there are at most as many phrases as records |
| RFQWords.RecordPhraseShape | src/main/java/cn/wuyijun/RFQWords.java:41-43 | each trimmed record is trimmed and free of ',' |
| RFQWords.MaxWordsLen | src/main/java/cn/wuyijun/RFQWords.java:48-50 | the word count of every phrase is at most maxWordsLen, which is 0 for none and otherwise attained by some phrase |
| RFQWords.MaxWordsLenOfDictionary | src/main/java/cn/wuyijun/RFQWords.java:48-50 | the same over the dictionary set: an upper bound on every phrase's word count, attained, and 0 for an empty dictionary |
| RFQWords.Words | src/main/java/cn/wuyijun/RFQWords.java:59-60 | a sentence's words, after trimming, lower-casing and splitting on ' ', are non-empty and hold no space and no upper-case letter |
| RFQWords.WindowGrow | src/main/java/cn/wuyijun/RFQWords.java:64-66 | the next window is the previous window, one space and the next word, as the builder grows it |
| RFQWords.WindowWords | src/main/java/cn/wuyijun/RFQWords.java:61-67 | a window of len words splits back into exactly those words, so its word count is len |
| RFQWords.HitsAtOnce | src/main/java/cn/wuyijun/RFQWords.java:61-70 | at one start a phrase is hit at most once, exactly when its word count is within the window limit and the window of that many words equals it |
| RFQWords.NestedHitsExample | src/main/java/cn/wuyijun/RFQWords.java:63-70 | in "world peace" both "world" and "world peace" are hit at the first word: no longest-match suppression |
| RFQWords.OverlappingHitsExample | src/main/java/cn/wuyijun/RFQWords.java:61-70 | "a a" is counted twice in "a a a": overlapping hits all count |
| RFQWords.ZeroWindowsNoHits | src/main/java/cn/wuyijun/RFQWords.java:63 | with maxWordsLen 0 no phrase is ever counted |
| RFQWords.EmptyDictionary | src/main/java/cn/wuyijun/RFQWords.java:48-63 | an empty dictionary has maxWordsLen 0, and the counts are the empty map |
| RFQWords.UpperCasePhraseNeverCounted | src/main/java/cn/wuyijun/RFQWords.java:43-68 | a phrase holding an upper-case letter is never counted, because only sentences are lower-cased |
| RFQWords.OccurrencesAppend | src/main/java/cn/wuyijun/RFQWords.java:58-72 | counts add up over a split of the sentence list |
| RFQWords.OccurrencesPermutation | src/main/java/cn/wuyijun/RFQWords.java:58-72 | any reordering of the same sentences gives the same count for every phrase |
| RFQWords.TallyPermutation | src/main/java/cn/wuyijun/RFQWords.java:58-72 | the result map does not depend on the order in which sentences are processed |
| RFQWords.CountOneWindow | src/main/java/cn/wuyijun/RFQWords.java:68-70 | counting one window keeps every key a phrase with count at least 1, and adds the hit to exactly that key |
| RFQWords.CountAtStart | src/main/java/cn/wuyijun/RFQWords.java:62-71 | the inner loop adds, for every phrase, its hits among the windows of 1..min(maxWordsLen, n - start) words, and touches no other key |
| RFQWords.CountSentence | src/main/java/cn/wuyijun/RFQWords.java:61-72 | one sentence adds, for every phrase, its hits over all start indexes |
| RFQWords.CountPhrases | src/main/java/cn/wuyijun/RFQWords.java:58-72 | the fold over all sentences yields exactly the tally: the dictionary phrases with at least one hit, each with its number of hits |
| RFQWords.TableIsTally | src/main/java/cn/wuyijun/RFQWords.java:68-70 | a table whose keys are phrases with counts of at least 1, and that agrees with the counts, is the tally |
| RFQWords.NatToString | src/main/java/cn/wuyijun/RFQWords.java:83 | a non-empty string of decimal digits, without a leading zero |
| RFQWords.NatToStringRoundTrip | src/main/java/cn/wuyijun/RFQWords.java:83 | the printed count reads back as the count |
| RFQWords.Element | src/main/java/cn/wuyijun/RFQWords.java:77-88 | element i is the key for i % 4 == 0, "," for 1, a decimal string that reads back as the count for 2, and the line separator for 3 |
| RFQWords.Layout | src/main/java/cn/wuyijun/RFQWords.java:76-89 | the output stream has four elements per entry |
| RFQWords.LayoutIsLines | src/main/java/cn/wuyijun/RFQWords.java:76-89 | the i % 4 layout is key, ",", count, line separator, entry after entry |
| RFQWords.EntriesOf | src/main/java/cn/wuyijun/RFQWords.java:75 | the entry list holds each key of the map once with its count, in some order |
| RFQWords.DoJob | src/main/java/cn/wuyijun/RFQWords.java:41-89 | the entries are the tally of the sentences against the dictionary in some order, and the output is their four-elements-per-entry layout |

## Left out

- File reading and writing (`Files.readString`, `Files.write`), the file paths, `main` and the timing output. `Files.write` also ends each element with a line separator; that step is not modelled.
- The loader thread, the busy-wait on the `AtomicReference`, `parallelStream`, `ConcurrentHashMap` and `AtomicInteger`. They are modelled as a sequential fold, shown order-independent by `RFQWords.TallyPermutation`.
- `System.lineSeparator()` is a parameter of `RFQWords.DoJob`.
- `HashMap` and `entrySet` iteration order: `RFQWords.EntriesOf` picks an unspecified order.
- RFQWords.LowerChar: lower-cases ASCII letters only, not Java's locale-dependent Unicode `toLowerCase`.
- RFQWords.ToLower: keeps the length because it maps LowerChar over the characters; Java's `toLowerCase` can change the length (U+0130 becomes two chars), which is not modelled.
- Java `char`s are UTF-16 code units, while Dafny `char`s are Unicode scalar values. Every string model (`CustomStringTokenizers`, `RFQWords.Split`, `RFQWords.Trim`) works on Dafny `char`s, so surrogate pairs are not modelled.
- `java.util.StringTokenizer` is not part of this model. `RFQWords` uses its behaviour through `Scanning.Tokens`, the same semantics as `CustomStringTokenizer` without `retDelims`.
- `ByteBuffer` objects are modelled as spans (offset, length) into the unchanged array. `ByteBuffer.array()` in the demonstration program prints the whole backing array; that output is not modelled.
- `hasMoreElements` and `nextElement` of `ByteTokenizer` and `ByteTwoLevelsTokenizer` just call `hasMoreTokens` and `nextToken`. They add nothing and are not modelled separately.
- `ByteTwoLevelsTokenizer.nextL1OrL2Token` is never called, and it is not modelled.
- The `CustomString` wrapper class is modelled as `string`. The `delimsChanged` flag is kept. The constructor and `nextToken` set it to false, and nothing sets it to true, because the source has no setter for the delimiters.
- The `NullPointerException` documented for a null byte array (`ByteTokenizer.java:38`, `ByteTwoLevelsTokenizer.java:38`) cannot arise: a Dafny `array<bv8>` is never null.
- Java's 32-bit `int` positions and counts are modelled as unbounded naturals. Arrays and strings longer than 2^31 - 1, and counts above it, do not arise in Java.
- RFQWords.MaxWordsLen: computed over the trimmed records in file order, not reduced over the set. `RFQWords.MaxWordsLenOfDictionary` shows that the value is the maximum over the set.
