# NLP4J tokenizer: offset reconciliation and the sentence pipeline

The tool reads a text file, hands it to NLP4J's `EnglishTokenizer`, and prints
the resulting sentences as nested JSON lists of token records
`{"start", "end", "text"}`. Its own logic is small:

- `tokenToMap` (`src/main/java/NLP4JTokenizer.java:74-93`) checks the offsets
  the tokenizer reports for a token against the document text. If the slice at
  those offsets does not equal the word form ignoring case, it tries the slice
  one character further on and, if that matches, moves both offsets by one.
  If the slice in hand still does not match, but does once its `\s` characters
  are removed, that slice becomes the record's text.
- The stream pipeline in `main` (lines 59-66) keeps, sentence by sentence, the
  tokens whose word form is not blank, maps them through `tokenToMap`, and
  collects the records, preserving sentence and token order.

This project models both in Dafny:

- `java_strings.dfy` (module `JavaStrings`): the library behaviour the code
  relies on. It covers `String.substring` with its `StringIndexOutOfBoundsException`
  (as a `Result`), `String.equalsIgnoreCase` (character by character, as
  `regionMatches` does it), the regular-expression class `\s` and
  `replaceAll("\\s", "")`, and `Character.isWhitespace` with
  `StringUtils.isNotBlank`.
- `offset_reconciliation.dfy` (module `OffsetReconciliation`): `TokenToMap`
  is the method, written step by step as the source performs it. It reassigns
  `start`, `end`, `text` and `docTxt`, and returns at the first `substring`
  that throws. It is proved equal to `Reconcile`, a declarative specification:
  `Classify` names the rung of the ladder that settles the token (`Direct`,
  `Shifted`, `Collapsed` or `Unverified`), and `Outcome` gives that rung's
  record. The lemmas state the properties of this ladder.
- `sentence_pipeline.dfy` (module `SentencePipeline`): `KeptTokens` (the
  filter), `ReconcileAll` (map and collect for one sentence, stopping at the
  first exception), `MapSentence` (one sentence), and `MapEach` with the
  generic `Collect` (the outer map and collect), giving `MapSentences`.

Observations the model makes precise:

- On a direct match and on a shifted match the text stays the word form, not
  the document slice. The text changes only through the whitespace test.
- The whitespace test always looks at the unshifted slice. A successful shift
  makes `docTxt` match, so the test cannot succeed after a shift.
- The shifted `substring` at line 81 runs whenever the first comparison fails.
  So a mismatching token that ends at the last character of the document
  raises the exception, even when its whitespace-free slice would match. One
  such exception aborts the whole pipeline.
- A token with a blank word form never reaches `tokenToMap`. Its offsets can
  be out of range without any exception.

## Model

| member | source | states |
|---|---|---|
| `JavaStrings.Substring` | src/main/java/NLP4JTokenizer.java:79-81 | `substring` succeeds exactly when 0 <= begin <= end <= length; its result has end - begin characters, copied from the string starting at begin; otherwise the exception carries the indices |
| `JavaStrings.CharEqualsIgnoreCaseIsFold` | src/main/java/NLP4JTokenizer.java:80 | the per-character test of `equalsIgnoreCase` holds exactly when both characters fold to the same lower case |
| `JavaStrings.EqualsIgnoreCaseAt` | src/main/java/NLP4JTokenizer.java:80 | `equalsIgnoreCase` holds exactly when the lengths are equal and the case-folded characters agree position by position |
| `JavaStrings.EqualsIgnoreCaseReflexive` | src/main/java/NLP4JTokenizer.java:88 | every string equals itself ignoring case |
| `JavaStrings.RemoveWhitespace` | src/main/java/NLP4JTokenizer.java:89 | `replaceAll("\\s", "")` never lengthens a string and leaves no `\s` character |
| `JavaStrings.RemoveWhitespaceKeeps` | src/main/java/NLP4JTokenizer.java:89 | exactly the characters of the string that are not `\s` remain, and a single character is kept exactly when it is not `\s` |
| `JavaStrings.RemoveWhitespaceAppend` | src/main/java/NLP4JTokenizer.java:89 | removing whitespace from a concatenation removes it from each part, so (with the single-character case) the result is the string's non-`\s` characters in their original order |
| `JavaStrings.RemoveWhitespaceFixedPoint` | src/main/java/NLP4JTokenizer.java:89 | removing whitespace leaves a string unchanged exactly when it has no `\s` character, and otherwise makes it strictly shorter |
| `OffsetReconciliation.TokenToMap` | src/main/java/NLP4JTokenizer.java:74-93 | the step-by-step computation (map entries, `docTxt` reassignment, exceptions from `substring`) returns exactly the record or exception that the ladder specification `Reconcile` gives |
| `OffsetReconciliation.NoExceptionIff` | src/main/java/NLP4JTokenizer.java:79-81 | no exception exactly when the span lies in the document and either its slice matches or the shifted slice lies in the document; otherwise the exception names the failing `substring`'s indices (line 79's, else line 81's) |
| `OffsetReconciliation.MismatchAtDocumentEndThrows` | src/main/java/NLP4JTokenizer.java:79-81 | a token ending at the end of the document whose slice does not match raises the exception |
| `OffsetReconciliation.DirectMatch` | src/main/java/NLP4JTokenizer.java:76-80 | if the slice matches the word form ignoring case, the record is exactly (start, end, wordForm) |
| `OffsetReconciliation.ShiftedMatch` | src/main/java/NLP4JTokenizer.java:80-86 | if the slice mismatches and the slice one further matches, the record is (start+1, end+1, wordForm) |
| `OffsetReconciliation.ShiftBound` | src/main/java/NLP4JTokenizer.java:76-85 | the record's start is start or start+1, its length end - start is preserved, and its span lies in the document |
| `OffsetReconciliation.TextReplacedIff` | src/main/java/NLP4JTokenizer.java:88-90 | the text differs from the word form exactly when the slice mismatches, the shifted slice mismatches and the whitespace-free slice matches; the text is then the unshifted slice at the original offsets |
| `OffsetReconciliation.ShiftExcludesReplacement` | src/main/java/NLP4JTokenizer.java:80-91 | the offset shift and the text replacement never both happen |
| `OffsetReconciliation.OutputText` | src/main/java/NLP4JTokenizer.java:78-90 | the text is the word form, or a string that contains `\s` whitespace, is strictly longer than the word form, and equals it ignoring case once its whitespace is removed |
| `OffsetReconciliation.VerifiedIff` | src/main/java/NLP4JTokenizer.java:76-91 | the slice at the record's offsets equals its text ignoring case, or equals the word form once whitespace is removed, exactly when one of the three tests succeeded |
| `OffsetReconciliation.ShiftRepairsStrippedQuote` | src/main/java/NLP4JTokenizer.java:80-86 | a token "Hello" reported at [0, 5) in "“Hello" is emitted at [1, 6) with text "Hello" |
| `OffsetReconciliation.CollapsedLineWrap` | src/main/java/NLP4JTokenizer.java:88-90 | a token "co-op" reported at [0, 6) in "co-\nop." (a line break after the hyphen) is emitted at [0, 6) with the slice "co-\nop", line break included, as its text |
| `OffsetReconciliation.LineWrapAtDocumentEndThrows` | src/main/java/NLP4JTokenizer.java:81 | the same token in "co-\nop", where it ends the document, raises the exception for the shifted indices [1, 7) in a document of length 6 |
| `SentencePipeline.KeptTokens` | src/main/java/NLP4JTokenizer.java:62 | the kept tokens are tokens of the sentence with a non-blank word form, and every such token is kept |
| `SentencePipeline.KeptTokensAppend` | src/main/java/NLP4JTokenizer.java:62 | filtering distributes over concatenation, so the kept tokens keep their relative order |
| `SentencePipeline.KeptTokensNoBlank` | src/main/java/NLP4JTokenizer.java:62 | a sentence without blank tokens is kept whole |
| `SentencePipeline.Collect` | src/main/java/NLP4JTokenizer.java:66 | `collect(toList())` over elements that may raise: success exactly when no element raises, and then one value per element, in order, each that element's value |
| `SentencePipeline.CollectFirstError` | src/main/java/NLP4JTokenizer.java:66 | a failing collection fails with the exception of its first raising element, and every element before it succeeded |
| `SentencePipeline.MapEach` | src/main/java/NLP4JTokenizer.java:59-65 | the outer `map` yields one outcome per sentence, in order, each that sentence's filtered, mapped and collected tokens |
| `SentencePipeline.ReconcileAll` | src/main/java/NLP4JTokenizer.java:63-64 | on success there is one record per token, in order, each the token's reconciled record; success exactly when no token raises an exception |
| `SentencePipeline.ReconcileAllFirstError` | src/main/java/NLP4JTokenizer.java:63-64 | on failure the exception is that of the first token that raises one |
| `SentencePipeline.MapSentences` | src/main/java/NLP4JTokenizer.java:59-66 | on success there is one list per sentence, in order, each that sentence's filtered and mapped tokens; success exactly when every sentence succeeds |
| `SentencePipeline.MapSentencesFirstError` | src/main/java/NLP4JTokenizer.java:59-66 | on failure the exception is that of the first failing sentence |
| `SentencePipeline.RecordsTrackKeptTokens` | src/main/java/NLP4JTokenizer.java:59-66 | record j of sentence i comes from the sentence's j-th non-blank token: its span lies in the document, moved by zero or one with the length kept, and its text is the word form or matches it once whitespace is removed |

## Left out

- Argument and file checks, reading the file, and joining its lines with `"\n"` (lines 27-56): I/O. The document text is a parameter.
- `EnglishTokenizer` and `segmentize` (lines 45, 58): a foreign library. Its sentences of tokens are an input of the pipeline. Its sentence-splitting and tokenizing rules are not modelled. Neither is the difference between the raw stream it reads and the line-joined text (carriage returns, a final newline), which is one source of the offset drift.
- JSON serialisation, printing, and the `JsonProcessingException` path (lines 67-71): output formatting. The `LinkedHashMap` is modelled as the record `TokenRecord(start, end, text)`.
- Case folding covers ASCII letters only. Java's `toUpperCase` and `toLowerCase` for other characters (accented letters, the Turkish dotless i, and so on) are not modelled.
- `Character.isWhitespace` follows Unicode as Java 9 and later see it. U+180E, whitespace in Java 8, is not included.
- Indices count Dafny characters (Unicode scalar values). Java counts UTF-16 code units, so a character outside the Basic Multilingual Plane counts twice in the source and once here.
- Offsets are unbounded integers. The 32-bit wrap of `getEndOffset() + 1` cannot change an outcome: it can only happen when the end offset equals the largest `int`, which is then also the document length, and both Java and the model throw at line 81.
- A `null` word form, which `isNotBlank` would reject, is not modelled: tokens always carry a string.
