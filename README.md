# tau: marker scanner and growable buffers, modelled in Dafny

tau is the front end of a small Lisp-like notation, written in C. This
project models three parts of it:

- **`read_markers`** (tau.c) makes one left-to-right pass over a NUL-terminated
  source string. It appends a `Marker {bidx, eidx, type}` to a growable buffer
  for every token. Whitespace is skipped. Fixed tokens come from an ordered
  dispatch table, matched by raw prefix. String literals are walked with
  backslash escapes. Any other token is a maximal run, classified as INT,
  FLOAT or SYMBOL.
- **The growable buffer of tau.c** (`buffer_create`, `buffer_resize`,
  `buffer_push`, `buffer_nth`, `buffer_pop`, `buffer_clear`). Growth doubles,
  starting from 1. `buffer_push` returns 1 on success and 0 on failure.
- **The second buffer, in lang/main.c** (`buffer_create`, `buffer_destroy`,
  `buffer_push`, `buffer_get_nth`). It starts over memory the caller owns and
  grows from 8. It guards the new byte count against size_t overflow and
  returns 0 or -1.

`marker_type_to_string` and the types in tau.h are modelled too.

Modules, one per file:

| file | module | what |
|---|---|---|
| wrappers.dfy | Wrappers | `Option` |
| tau_types.dfy | TauTypes | `MarkerType`, `Marker`, `ReturnStatus` (tau.h); `marker_type_to_string` |
| memory.dfy | Memory | the part of `realloc` the buffers rely on |
| tau_buffer.dfy | TauBuffer | tau.c's buffer as a class over an `array<T>` |
| tau_lexer.dfy | TauLexer | the scan as pure functions: the specification of `read_markers` |
| tau_scanner.dfy | TauScanner | `read_markers` as the imperative loop it is, with each inner loop a method proved equal to its TauLexer function |
| tau_lexer_properties.dfy | TauLexerProperties | what the scan guarantees, for every input |
| tau_lexer_examples.dfy | TauLexerExamples | the scan on concrete inputs, including one of the expressions in main_tau.c |
| lang_buffer.dfy | LangBuffer | lang/main.c's buffer as a class, with explicit 64-bit size_t arithmetic |

Modelling choices:

- The source string is a `CString`: a `seq<char>` with no NUL in it. The C
  string's terminator is index `|s|`. Each `input_string[i] != '\0'` test is
  therefore `i < |s|`, and `strncmp(input+i, tok, len) == 0` is
  `StartsWithAt(s, i, tok)`.
- `isspace` and `isdigit` use the C locale's sets.
- A NULL pointer argument is `Option.None` (the input string, the pushed
  element) or a `null` object (a buffer).
- Allocation is not modelled. Whether `malloc`/`realloc` succeeds is a
  boolean parameter of the buffer operations (`allocOk`, `reallocOk`).
  Inside `ReadMarkers` the outcome of each push is left arbitrary.
- Buffer elements have a generic type `T` rather than `element_size` bytes.
  tau.c's buffer carries the all-zero element `zero` that `buffer_clear`'s
  `memset` stands for.

## Model

| member | source | states |
|---|---|---|
| TauTypes.OfCode | tau.h:5-23 | an integer names an enumerator exactly when it is one of the 17 codes 0..16 |
| TauTypes.CodeRoundTrip | tau.h:5-23 | `Code` and `OfCode` are inverse: every kind round-trips through its code, and a code that decodes to a kind is that kind's code |
| TauTypes.Name | tau.c:254-260 | every enumerator's name is the `MARKER_`-prefixed identifier |
| TauTypes.MarkerTypeToString | tau.c:252-262 | the result is "MARKER_UNKNOWN" exactly when the value is outside the enumeration, else the enumerator's name |
| TauTypes.NamesDistinct | tau.c:252-262 | no two kinds share a name, so the name identifies the kind |
| TauTypes.EveryKindNamed | tau.c:252-262 | every enumerator, passed as its code, gets its own name and never the fallback |
| Memory.Realloc | tau.c:59 | a fresh block of the new length whose first `keep` elements are those of the old block |
| TauBuffer.Buffer.constructor | tau.c:38-40 | a valid buffer over a fresh block of the requested capacity, with no elements |
| TauBuffer.GrownCapacity | tau.c:72 | the capacity a full buffer grows to always has room for one more element and is at least double the old one |
| TauBuffer.Buffer.Create | tau.c:29-42 | NULL exactly when allocation fails; otherwise a fresh empty buffer of the requested capacity |
| TauBuffer.Buffer.Resize | tau.c:58-64 | 1 with the capacity set and a fresh block keeping the contents when realloc succeeds, 0 with nothing changed when it fails |
| TauBuffer.Buffer.Push | tau.c:70-81 | 0 exactly when the buffer was full and growth failed, with nothing changed; otherwise 1, contents extended by the element, count + 1, capacity grown to 1 or doubled only when it was full |
| TauBuffer.Buffer.Nth | tau.c:86-91 | NULL exactly when `n >= count`, otherwise element `n` of the contents |
| TauBuffer.Buffer.Pop | tau.c:98-108 | 0 exactly when empty, with nothing changed; otherwise 1, the last element removed, and handed back when the caller asks for it |
| TauBuffer.Buffer.Clear | tau.c:113-118 | count 0, same block and capacity, every slot holds the zero element |
| TauLexer.SkipSpace | tau.c:145-146 | the first non-space position at or after `i`; everything skipped is whitespace |
| TauLexer.MatchFrom | tau.c:155-166 | a found entry index lies in the part of the table searched |
| TauLexer.MatchFromFirst | tau.c:155-166 | the entry found is a prefix at `i` and no earlier entry is; when none is found, no entry is a prefix |
| TauLexer.MatchFixedFirst | tau.c:133-166 | what `MatchFixed` means: the entry it finds in the dispatch table is a prefix at `i` and no earlier entry is; when it finds none, no entry is a prefix |
| TauLexer.StringClose | tau.c:171-189 | a closing index found holds a `"` and lies inside the input (its exact meaning is `StringCloseIsLiteralBody`) |
| TauLexer.RunEnd | tau.c:200-209 | the end of the maximal run: nothing in it ends a run, and the character after it does |
| TauLexer.FirstNonDigit | tau.c:222-233 | everything before the result is a digit and the character at it is not |
| TauLexer.NoFixedMatchIsNoBracket | tau.c:137-138 | with no table match the current character is no parenthesis or bracket, so a generic run starting there is non-empty |
| TauLexer.NextMarker | tau.c:150-242 | a marker found starts at `j`, is non-empty and ends within the input |
| TauScanner.SkipWhitespace | tau.c:145-146 | the whitespace loop stops where `SkipSpace` says |
| TauScanner.MatchDispatch | tau.c:155-166 | the `for` loop over the dispatch table returns the first matching entry (`MatchFixed`) |
| TauScanner.ScanString | tau.c:171-189 | the string-literal loop finds the closing quote `StringClose` defines, or none |
| TauScanner.ScanGeneric | tau.c:200-209 | the generic-run loop ends where `RunEnd` says |
| TauScanner.ClassifyToken | tau.c:214-240 | the `isInt`/`isFloat` loop yields `Classify` of the run |
| TauScanner.ScanMarker | tau.c:150-240 | one pass of the outer loop yields `NextMarker` at the current position |
| TauScanner.ReadMarkers | tau.c:121-246 | a NULL input or buffer gives VALUE_ERROR with the buffer untouched; otherwise the old contents stay in place, followed either by exactly the markers of `Lex(s)` under its status (SUCCESS or VALUE_ERROR), or, on RUNTIME_ERROR, by a proper prefix of them |
| TauLexerProperties.LexFromWellFormed | tau.c:142-243 | the scan of `s[i..]` ends in SUCCESS or VALUE_ERROR; its markers lie in `[i, |s|]`, are non-empty, and each ends before any later one begins |
| TauLexerProperties.LexWellFormed | tau.c:142-243 | the same for a whole source: `bidx < eidx <= |s|`, ordered and non-overlapping |
| TauLexerProperties.LexFromGapsAreSpace | tau.c:143-148 | only whitespace is dropped: every gap before a marker is whitespace, each marker starts on a non-space, and on success the tail is whitespace |
| TauLexerProperties.LexFromMarkersAreNext | tau.c:142-243 | every marker of the scan is the one `NextMarker` finds at its own start |
| TauLexerProperties.LexFromStops | tau.c:142-246 | what `LexFrom` means at its end: past its last marker the status is SUCCESS exactly when only whitespace remains, and VALUE_ERROR exactly when the next non-space is a `"` that `StringClose` never closes |
| TauLexerProperties.LexStops | tau.c:142-246 | the same for `Lex` on a whole source |
| TauLexerProperties.NextMarkerNone | tau.c:171-189 | at a non-space position no marker is found exactly when a string literal opens there and is never closed |
| TauLexerProperties.StringCloseFrom | tau.c:174-186 | from any position the escape walk reaches, it closes at the first quote after it that an even run of backslashes precedes |
| TauLexerProperties.StringCloseIsLiteralBody | tau.c:171-189 | the escape walk from `i` closes at `q` exactly when `s[q]` is `"` and `s[i..q]` is a literal body (each quote in it preceded by an odd run of backslashes, its trailing run even); it finds no close exactly when no quote ends a literal body |
| TauLexerProperties.ClosedIsLiteralBody | tau.c:171-189 | a close the escape walk finds ends a literal body |
| TauLexerProperties.FixedMarkerShape | tau.c:155-166 | a fixed-kind marker comes from the first table entry that is a raw prefix (no word-boundary check) and spans exactly that entry's length |
| TauLexerProperties.DispatchTableLongerFirst | tau.c:8-25 | no table entry is a proper prefix of a later one, as the comment at line 10 requires |
| TauLexerProperties.FirstMatchIsLongestIn | tau.c:155-166 | in any such table the first matching entry is at least as long as every matching entry |
| TauLexerProperties.FixedMatchIsLongest | tau.c:125-166 | the first-match dispatch of read_markers is longest-match dispatch |
| TauLexerProperties.TableKindsAreFixed | tau.c:129-139 | no table entry yields STRING, SYMBOL, INT or FLOAT, and none starts with `"` |
| TauLexerProperties.StringMarkerShape | tau.c:171-194 | a STRING marker spans both quotes, at least two characters, its closing quote is the one `StringClose` finds, and what lies between the quotes is a literal body |
| TauLexerProperties.RunMarkerShape | tau.c:197-211 | a SYMBOL, INT or FLOAT marker is the maximal run at its start, classified by `Classify` |
| TauLexerProperties.ClassifyInt | tau.c:213-240 | what `Classify` means for INT: INT exactly when the run is an optional sign followed by one or more digits |
| TauLexerProperties.ClassifyFloat | tau.c:213-240 | what `Classify` means for FLOAT: FLOAT exactly when, after the optional sign, some dot is preceded only by digits, whatever follows it |
| TauLexerProperties.ClassifyRange | tau.c:214-240 | a generic run is always SYMBOL, INT or FLOAT; with `ClassifyInt` and `ClassifyFloat` this makes SYMBOL every run that is neither number |
| TauLexerExamples.NillyIsNilThenSymbol | tau.c:14 | `nilly` scans as NIL `[0,3)` then SYMBOL `[3,5)` |
| TauLexerExamples.UnsyntaxSplicingBeatsUnsyntax | tau.c:13-18 | `#,@` is one UNSYNTAX_SPLICING marker, not UNSYNTAX followed by something |
| TauLexerExamples.BracketsAreParens | tau.c:137-138 | `[x]` scans as LPAREN, SYMBOL, RPAREN |
| TauLexerExamples.EscapedQuoteStaysInside | tau.c:174-186 | an escaped quote does not close a literal; the STRING marker includes both quotes |
| TauLexerExamples.UnclosedStringIsValueError | tau.c:185-189 | input ending inside a literal is VALUE_ERROR |
| TauLexerExamples.TrailingBackslashIsValueError | tau.c:175-180 | a lone backslash at the end of a literal is VALUE_ERROR, after the markers before it |
| TauLexerExamples.QuoteAndCommaInsideRun | tau.c:201-207 | `'` and `,` inside a run do not split it |
| TauLexerExamples.BlankSources | tau.c:143-148 | the empty and the all-whitespace source give SUCCESS with no markers |
| TauLexerExamples.AddExpression | main_tau.c:9 | `(+ 1 2)` scans as LPAREN, SYMBOL `+`, INT, INT, RPAREN at the right offsets |
| TauLexerExamples.ClassifySigns | tau.c:217-220 | a lone sign is SYMBOL; signed and zero-led digit runs are INT |
| TauLexerExamples.ClassifyFloats | tau.c:222-239 | `1.5`, `.`, `-.5`, `1.2.3` and `1.x` are FLOAT; `a.1` and `1a.` are SYMBOL |
| LangBuffer.Buffer.constructor | lang/main.c:26-48 | an empty buffer with the given base, element size and capacity, whatever the warnings |
| LangBuffer.BufferDestroy | lang/main.c:56-64 | a buffer with a block ends with NULL base and all counts 0; a NULL buffer or one without a block is unchanged |
| LangBuffer.GrownCapacityWraps | lang/main.c:87 | what `GrownCapacity` means: the size_t doubling equals the intended capacity when that fits, and otherwise wraps below the old capacity |
| LangBuffer.ByteCountTest | lang/main.c:88-91 | the division test fails exactly when the new byte count overflows size_t |
| LangBuffer.GrowthGuardExact | lang/main.c:87-94 | what `GrowthOverflows` means: the guard rejects exactly when the new capacity or its byte count exceeds SIZE_MAX; when it accepts, the new capacity is 8 or twice the old and is larger than it |
| LangBuffer.NullBaseFirstPushAsWritten | lang/main.c:26-48 | `buffer_create(NULL, es, c)` is a valid empty buffer, and under the growth rule as written its first push is defined exactly when `c` is 0; the corrected rule `NeedsGrowth` reallocates it |
| LangBuffer.BufferPushAsWritten | lang/main.c:74-123 | `buffer_push` with the growth test `NeedsGrowthAsWritten` (`size == capacity`) exactly as coded, defined where the store has a block; there its growth decision is that of `NeedsGrowth`, and it returns and changes what `BufferPush` does |
| LangBuffer.BufferPush | lang/main.c:74-123 | `buffer_push` with the corrected growth test `NeedsGrowth` (full, or no block): -1 for a NULL buffer or element, a zero element size, an overflowing growth or a failed realloc, with nothing changed; otherwise 0, contents extended by the element, size + 1, and capacity grown to 8 or doubled exactly when `NeedsGrowth` holds |
| LangBuffer.BufferGetNth | lang/main.c:133-142 | NULL exactly when the buffer is NULL or `n >= size`, otherwise element `n` |

## Left out

- Freeing memory. tau.c's `buffer_destroy` and `buffer_cleanup` only free memory, so they are left out. lang/main.c's `buffer_destroy` is modelled as its field reset.
- `pretty_print_markers` only formats output with printf, and the drivers (main_tau.c, main_tau_readfile.c) only read files and print. fuzz.c is a fuzzing harness. main_tau.c:9 appears only as a lemma input.
- `eval_buffer` is declared in tau.h, but its definition is not part of this model.
- The stub structures and empty `main` in lang/main.c:145-175 are left out. So are the `fprintf` warnings that `buffer_create` prints.
- Byte-level storage is left out. `element_size` arithmetic, `memcpy` and `memset` are replaced by typed elements, an assignment and the `zero` element.
- TauBuffer.Buffer.Push: does not model size_t wrap-around in `capacity * 2` or in `element_size * new_capacity`, because tau.c has no overflow guard to model. The capacity there is an unbounded `nat`.
- TauBuffer.Buffer.Resize: requires `count <= newCapacity`. tau.c never shrinks a buffer below its count, and shrinking would drop elements that `count` still claims.
- TauBuffer.Buffer.Create: a `malloc` of zero bytes that returns NULL is folded into `allocOk`.
- Aliasing is not modelled, except for lang/main.c's caller-supplied block, which the buffer keeps using. Pointers that `buffer_nth` and `buffer_get_nth` return are modelled as element values, so later writes through them are not represented.
- LangBuffer.BufferPush: follows the corrected growth rule of the Findings table, not lang/main.c:85 as written. On a NULL base with capacity 8 it reallocates to twice the nominal capacity (16 elements). The comment at lang/main.c:35 only says the first push should allocate, not how much. The growth rule as written is `BufferPushAsWritten`.
- The `fprintf` error messages of `buffer_push` (lang/main.c:76, 80, 92, 102) are not modelled; only the -1 they precede is.
- Each `char` of a source string stands for one byte of the C string, with a value from 1 to 255. `bidx` and `eidx` are byte offsets, and `IsSpace` and `IsDigit` test that byte as the `unsigned char` the C locale's `isspace` and `isdigit` see. Multi-byte encodings are not decoded.
- LexFrom stops at the first unclosed string literal, like the code. Markers pushed before that point stay in the buffer, as `ReadMarkers` states.
- Some behaviour follows the code where its comments or names suggest otherwise:
  - The comment at tau.c:224 says several dots make a run "not a valid number", but the code only clears `isInt` and keeps `isFloat`. So `1.2.3` is FLOAT, and so is `1.x`: a run is FLOAT as soon as the first non-digit after the sign is a dot.
  - The comment at tau.c:10 asks for longer tokens first, as a longest-match lexer would. The loop at tau.c:155-166 takes the first entry in table order. `FixedMatchIsLongest` shows the two agree for this table.

## Findings

| source | as written | input that shows it | evidently intended | confidence | as-written member | corrected member |
|---|---|---|---|---|---|---|
| lang/main.c:85 | `buffer_push` reallocates only when `size == capacity`, even when `base` is NULL | `buffer_create(NULL, 4, 8)` then `buffer_push(&buf, &x)`: size 0 differs from capacity 8, so the element is copied to NULL + 0 | the comment at lang/main.c:33-36 says a NULL base with non-zero capacity is allowed so that the first push allocates: reallocate when `size == capacity` or `base == NULL` | not executed | LangBuffer.NullBaseFirstPushAsWritten, LangBuffer.BufferPushAsWritten | LangBuffer.BufferPush |
