# breakout: the Postgres client, the input trackers, the game state machine and the admin tool

This project models the sequential core of the breakout repository in Dafny and proves properties about the model. The core has six parts.

- **The SQL statement splitter of `simple-postgres`** (module `StatementSplitter`, `statement.dfy`).
  - `split_statements` returns an iterator whose only state is the text not yet consumed.
  - Each `next()` drops leading white space. It then scans one character at a time, tracking the quote tag, the backslash parity, the block-comment depth and the line-comment flag. It stops just after the first `;` at top level.
  - The scan is modelled as written, quirks included. One of them, the tag an opening quote records, is listed under Findings.
  - The model has two parts: a class `Statements` whose `Next` method holds the loop, and a pure function `Step` describing one turn of that loop.
- **The result deserializer** (module `Deserialize`, `de.dfy`).
  - A class `Deserializer` holds a row and a column cursor over an untyped grid of text cells.
  - The shape the caller asks for decides how the cursor walks the grid:
    - a sequence walks rows;
    - a tuple walks columns from the current one;
    - a struct or map walks all columns from the first;
    - a scalar reads one cell.
  - The `unwrap()` and `unimplemented!()` sites are modelled as a distinct `Panic` answer. Returned errors are values.
  - Three quirks are listed under Findings: tuples in a vector, `u64` cells above `i64::MAX`, and map keys.
  - serde's own visitors decide results as much as the deserializer does, so their behaviour is modelled too: the tuple length check, the integer range check, and duplicate, missing and unknown struct fields.
- **Parameter encoding and the `query!` macro** (module `SqlParams`, `params.dfy`; `utf8.dfy`; `roundtrip.dfy`).
  - Each parameter maps to a type OID, the UTF-8 bytes of its text followed by one 0 byte, and the text format.
  - `query!` lays the parameters out as three parallel arrays.
  - Module `RoundTrip` connects this encoding to the deserializer through a server that echoes its parameters.
- **The touch tracker, the touch event type and the keyboard state** (module `Events`, `events.dfy`), for both `src/event.rs` and `breakout/src/event.rs`, which agree on this logic.
  - `TouchTracker::update` is a class method that changes its touch list in place: it overwrites, pushes, and swaps with the last element before popping.
  - It also keeps a local map from identifier to index. That map can go stale; this is listed under Findings.
- **The game's stage, lives and score state machine** and the frame update (module `Game`, `game.dfy`).
- **`new_password` and the credential parser of `admin-reset`** (module `AdminReset`, `admin.dfy`).

### Shared modules

- `text.dfy` (module `Text`) holds the Rust string operations these parts use:
  - `char::is_whitespace`, with Unicode's White_Space list;
  - `trim_start`, `trim` and `trim_matches`;
  - integer `to_string`, and parsing as `i64` / `u64`.
- `wrappers.dfy` holds `Option`.

### Inputs the model takes as parameters

- **The game's time** is counted in whole hundredths of a second, so the simulation step `epsilon = 0.01` is one unit. What `update_ball` reports at each step is given as a function of the step number.
- **The timestamptz re-formatting** (`chrono`'s `parse_from_str` + `to_rfc3339`) is a given partial function.
- **The two random generators of `new_password`** are given as the sequences of values they produce.
- **The connection-string file** is given as its text.

## Model

| member | source | states |
|---|---|---|
| StatementSplitter.TagEnd | simple-postgres/src/statement.rs:93-104 | the inner tag loop stops at the first non-alphanumeric character, and every character before it is alphanumeric |
| StatementSplitter.DollarQuoteOpens | simple-postgres/src/statement.rs:77-113 | at top level, `$$` opens the `$$` quote; `$`, a letter, then alphanumerics up to a `$` opens that whole tag and resumes after it; `$` before a digit or a non-letter is passed over by `continue`, keeping the backslash parity; otherwise only the `$` is consumed |
| StatementSplitter.TaggedLiteral | simple-postgres/src/statement.rs:68-105 | an opened `$tag$` makes the scan resume just after the first later `$tag$`, whatever lies between (`;`, quotes, `$$`, other tags), while no comment opens |
| StatementSplitter.DollarQuoteCloses | simple-postgres/src/statement.rs:69-74 | inside a dollar quote, its tag at the current position closes the quote just after the tag |
| StatementSplitter.DollarQuoteGoesOn | simple-postgres/src/statement.rs:69-76 | anywhere else inside the quote, one character is consumed and only the backslash parity changes |
| StatementSplitter.TaggedExampleScan | simple-postgres/src/statement.rs:201-203 | `$tag$;$tagged$;$tag$` scans to its end: the inner `$tagged$` does not close the outer quote |
| StatementSplitter.TaggedExampleSplit | simple-postgres/src/statement.rs:201-203 | that text is a single statement |
| StatementSplitter.LineEnd | simple-postgres/src/statement.rs:47-50 | the first `\n` or `\r` from a position, or the end |
| StatementSplitter.LineCommentStep | simple-postgres/src/statement.rs:43-51 | inside a line comment, a `\n` or `\r` ends it; any other turn moves forward without changing where the comment ends |
| StatementSplitter.TrimStartAllWhitespace | simple-postgres/src/statement.rs:19-21 | text made only of white space trims to empty |
| StatementSplitter.NoBackslashParity | simple-postgres/src/statement.rs:108-113 | text with no backslash leaves the parity at 0 |
| StatementSplitter.DollarStep | simple-postgres/src/statement.rs:68-106 | the `$` branch always moves forward and never panics |
| StatementSplitter.Step | simple-postgres/src/statement.rs:29-113 | one loop turn breaks exactly on a `;` at top level, just after it; otherwise it advances; it panics only on a `'` or `"` that opens a literal |
| StatementSplitter.Scan | simple-postgres/src/statement.rs:29-114 | a statement ends at the end of the input or just after a `;` |
| StatementSplitter.NextOf | simple-postgres/src/statement.rs:18-123 | `next()` on trimmed-empty input is exhausted; otherwise the statement is non-empty, starts with a non-space character, and statement followed by the kept text is the trimmed input; a statement that is not the last ends with `;` |
| StatementSplitter.Statements.constructor | simple-postgres/src/statement.rs:11-13 | `split_statements` keeps the whole input |
| StatementSplitter.Statements.Next | simple-postgres/src/statement.rs:18-123 | the method returns what `NextOf` gives for the old text and keeps the rest |
| StatementSplitter.ScanStatement | simple-postgres/src/statement.rs:22-114 | the imperative scanning loop ends where the pure `Scan` says |
| StatementSplitter.ScanTurn | simple-postgres/src/statement.rs:30-113 | the imperative body of one loop turn breaks, panics or advances exactly as `Step` says |
| StatementSplitter.ScanTag | simple-postgres/src/statement.rs:93-104 | the nested tag iterator stops at `TagEnd` and reports whether it found the closing `$` |
| StatementSplitter.SplitStatements | simple-postgres/src/statement.rs:15-123 | collecting the iterator gives `Split`'s statements in order, each with an empty parameter list |
| StatementSplitter.SplitNext | simple-postgres/src/statement.rs:18-123 | the iteration is finite: each yielded statement strictly shortens the remaining text |
| StatementSplitter.SplitEmptyIff | simple-postgres/src/statement.rs:19-21 | the input yields no statements exactly when it is all white space |
| StatementSplitter.SplitOfEmpty | simple-postgres/src/statement.rs:130-136 | the empty input yields nothing |
| StatementSplitter.SplitStatementShape | simple-postgres/src/statement.rs:116-119 | every statement is non-empty and starts with a non-space character; all but the last (all of them when the split panicked) end with `;` |
| StatementSplitter.SplitWhole | simple-postgres/src/statement.rs:18-123 | a text that starts with a non-space character and scans to its end is one statement |
| StatementSplitter.SplitReassembles | simple-postgres/src/statement.rs:19 | without a panic, the input is the statements interleaved with white-space gaps: only leading white space is lost |
| StatementSplitter.NoSemicolonRunsToEnd | simple-postgres/src/statement.rs:29-119 | with no `;` left, the statement runs to the end of the input unless a quote opens where `[..1]` panics |
| StatementSplitter.LineCommentSkipped | simple-postgres/src/statement.rs:43-51 | a line comment runs up to the next `\n` or `\r` (or the end), whatever it holds |
| StatementSplitter.BlockCommentSkipped | simple-postgres/src/statement.rs:33-42 | nested block comments are skipped up to the matching `*/` at depth 0, or to the end |
| StatementSplitter.DollarQuoteClosesAt | simple-postgres/src/statement.rs:68-76 | with no comment opener in between, an open dollar quote closes exactly at the first later occurrence of its own tag: a `;`, a quote or another dollar tag before it changes nothing |
| StatementSplitter.DollarQuoteUnclosed | simple-postgres/src/statement.rs:68-76 | with no comment opener in between, a dollar quote whose tag never occurs again runs the scan to the end of the input |
| StatementSplitter.DollarQuoteStep | simple-postgres/src/statement.rs:68-76 | inside a dollar quote, one turn either consumes the whole closing tag or one character |
| StatementSplitter.QuoteTagNeverCloses | simple-postgres/src/statement.rs:52-67 | a one-character quote tag that is neither a quote nor `$` never closes: with no comment opener, the statement runs to the end |
| StatementSplitter.ParityOfTrailingRun | simple-postgres/src/statement.rs:108-113 | `backslashes` is the parity of the current run of backslashes |
| StatementSplitter.InertRun | simple-postgres/src/statement.rs:108-113 | a run of ordinary characters only updates the backslash parity |
| StatementSplitter.QuoteTagCounterexample | simple-postgres/src/statement.rs:60-67 | `SELECT 'a'; SELECT 1` splits as one statement |
| StatementSplitter.IntendedScan | simple-postgres/src/statement.rs:52-67 | with the quote itself as the tag, a statement still ends at the end or just after a `;`, and never panics |
| StatementSplitter.IntendedQuoteSkipped | simple-postgres/src/statement.rs:52-67 | corrected: a quoted literal is skipped up to its matching closing quote |
| StatementSplitter.IntendedQuoteExample | simple-postgres/src/statement.rs:60-67 | corrected: `SELECT 'a'; SELECT 1` ends its first statement after `;` |
| StatementSplitter.QuoteTagScan | simple-postgres/src/statement.rs:60-67 | as written, `SELECT 'a'; SELECT 1` scans to its end |
| StatementSplitter.IntendedStep | simple-postgres/src/statement.rs:52-67 | corrected: every turn moves forward or breaks just after the current character, and never panics |
| StatementSplitter.QuotedStep | simple-postgres/src/statement.rs:52-67 | corrected: inside a `c` quote, `c` closes it and any other plain character is consumed |
| StatementSplitter.IntendedInsideQuote | simple-postgres/src/statement.rs:52-67 | corrected: a run free of the quote, backslashes and comment openers is skipped up to the closing quote |
| StatementSplitter.IntendedInertRun | simple-postgres/src/statement.rs:108-113 | corrected: a run of ordinary characters at top level changes nothing |
| Text.TrimStart | simple-postgres/src/statement.rs:19 | `trim_start` drops exactly the leading white space |
| Text.TrimStartIsSuffix | simple-postgres/src/statement.rs:19 | `trim_start` keeps a suffix of its input |
| Text.LeadingWhitespace | admin-reset/src/main.rs:70 | the prefix `trim_start` drops is white space, and the trimmed text follows it |
| Text.Trim | admin-reset/src/main.rs:64 | `trim` gives an infix that neither starts nor ends with white space, with only white space before and after it |
| Text.SkipBackward | admin-reset/src/main.rs:64 | the start of the run of set characters that ends at `j` |
| Text.TrimMatches | admin-reset/src/main.rs:68 | `trim_matches` gives an infix that neither starts nor ends with a set character, with only set characters before and after it |
| Text.TrimEnd | admin-reset/src/main.rs:64 | the trailing half of `trim` drops exactly the trailing white space |
| Text.TrimStartMatches | admin-reset/src/main.rs:68 | the leading half of `trim_matches` drops exactly the leading characters of the set |
| Text.TrimEndMatches | admin-reset/src/main.rs:68 | the trailing half of `trim_matches` drops exactly the trailing characters of the set |
| Text.SkipForward | admin-reset/src/main.rs:70 | the first index from `i` whose character is outside the set |
| Text.NatString | simple-postgres/src/lib.rs:40 | `to_string` of a natural number is a non-empty string of digits with no leading zero |
| Text.DigitsValueOfNatString | simple-postgres/src/lib.rs:40 | the digits of `to_string` read back as the number |
| Text.DecimalString | simple-postgres/src/lib.rs:40 | `to_string` of any integer is integer text of that value; it starts with `-` exactly when the number is negative, and never with `+` |
| Text.DigitsText | simple-postgres/src/lib.rs:40 | digits, with or without a leading `-`, are integer text of their value or its negation |
| Text.ParseU64 | simple-postgres/src/de.rs:153-158 | parsing as `u64` succeeds exactly on an optional sign and digits, with no `-`, whose value is at most `u64::MAX`, and gives that value |
| Text.ParseI64 | simple-postgres/src/de.rs:124 | parsing as `i64` succeeds exactly on an optional sign and digits whose value lies in the `i64` range, and gives that value |
| Text.ParseI64OfDecimalString | simple-postgres/src/lib.rs:39-43 | the decimal `to_string` of any `i64` parses back to it |
| Text.ParseU64OfDecimalString | simple-postgres/src/de.rs:153-158 | the decimal text of any `u64` parses back as `u64` |
| Utf8.DecodeEncode | simple-postgres/src/lib.rs:21 | `from_utf8` of a string's `as_bytes` gives the string back |
| Utf8.EncodeDecode | simple-postgres/src/de.rs:69 | bytes that decode re-encode to themselves |
| Utf8.DecodeIff | simple-postgres/src/de.rs:206 | bytes decode to `s` exactly when they are the encoding of `s` |
| Utf8.EncodeChar | simple-postgres/src/lib.rs:21 | one character encodes as 1 to 4 bytes, a single byte exactly below U+0080, followed by continuation bytes, with a leading 0 only for U+0000 |
| Utf8.EncodeAscii | simple-postgres/src/lib.rs:21 | ASCII text encodes byte for byte |
| Utf8.EncodeZero | simple-postgres/src/lib.rs:21-22 | the encoding holds a 0 byte exactly when the text holds U+0000 |
| Utf8.Encode | simple-postgres/src/lib.rs:21 | the encoding has at least one byte per character |
| Utf8.EncodeCons | simple-postgres/src/lib.rs:21 | a string encodes character by character |
| Utf8.DecodeChar | simple-postgres/src/de.rs:69 | a decoded character takes 1 to 4 bytes |
| Utf8.Decode | simple-postgres/src/de.rs:69 | decoded text has no more characters than bytes |
| Utf8.DecodeCons | simple-postgres/src/de.rs:69 | decoding takes the first character's bytes, then decodes the rest |
| Utf8.DecodeEncodeChar | simple-postgres/src/lib.rs:21 | a character's encoding decodes to it, whatever follows |
| Utf8.EncodeDecodeChar | simple-postgres/src/de.rs:69 | the bytes of a decoded character are its encoding |
| SqlParams.TypeOid | simple-postgres/src/lib.rs:52-60 | 8- and 16-bit integers map to INT2, 32-bit to INT4, 64-bit to INT8, `&str` to CSTRING |
| SqlParams.RangeWithinI64 | simple-postgres/src/lib.rs:52-60 | every integer type's range lies within `i64..=u64::MAX`, and every type but `u64` within `i64` |
| SqlParams.Value | simple-postgres/src/lib.rs:20-24 | every value is present and ends with a 0 byte |
| SqlParams.TextOf | simple-postgres/src/lib.rs:20-43 | a string parameter's text is the string; an integer's is integer text of its value |
| SqlParams.Body | simple-postgres/src/lib.rs:22 | a value is its body followed by the one pushed byte |
| SqlParams.ValueRoundTrip | simple-postgres/src/lib.rs:15-50 | the bytes before the pushed 0 decode to the parameter's text, and it is the only 0 unless the text holds U+0000 |
| SqlParams.DecimalHasNoNul | simple-postgres/src/lib.rs:40 | an integer's `to_string` holds no U+0000 |
| SqlParams.IntValueSingleNul | simple-postgres/src/lib.rs:39-43 | an integer's value has exactly one 0 byte, the last |
| SqlParams.QueryArgsOf | simple-postgres/src/lib.rs:104-113 | `query!` with k parameters builds three arrays of length k in argument order; entry i is parameter i's type, value and text format |
| Deserialize.Decode | simple-postgres/src/de.rs:37-426 | a successful read never moves back a row, and moves back a column only to end past the last one |
| Deserialize.DecodeRows | simple-postgres/src/de.rs:440-454 | the row iterator keeps that cursor discipline |
| Deserialize.DecodeTuple | simple-postgres/src/de.rs:504-518 | the tuple iterator keeps that cursor discipline |
| Deserialize.DecodeFields | simple-postgres/src/de.rs:469-489 | a successful struct read ends past the last column |
| Deserialize.DecodeEntries | simple-postgres/src/de.rs:469-489 | a successful map read ends past the last column |
| Deserialize.FieldIndex | simple-postgres/src/de.rs:411-416 | the field a column name identifies: the first field of that name, or none |
| Deserialize.FirstMissing | simple-postgres/src/de.rs:371-381 | the first field not yet seen, the one a `missing_field` error names |
| Deserialize.DecodeBool | simple-postgres/src/de.rs:61-90 | a bool read is one whose word list holds the cell text; the only error is `ExpectedBoolean`; it panics exactly on a binary column, a NULL cell or bad UTF-8 |
| Deserialize.DecodeInt | simple-postgres/src/de.rs:94-158 | an integer read lies in its type's range and in `i64`; an error is `InvalidValue` of a value outside the type's range |
| Deserialize.DecodeString | simple-postgres/src/de.rs:188-229 | a string read comes from a non-NULL cell, and outside `timestamptz` columns it encodes to the cell's bytes; NULL in a text column is `UnexpectedNull`, and the only other error is the invalid-date message |
| Deserialize.DecodeUnit | simple-postgres/src/de.rs:270-294 | unit succeeds only with no columns, no rows or a NULL cell; an error is `ExpectedNull` on a non-NULL cell; it panics only on a binary column |
| Deserialize.DecodeScalar | simple-postgres/src/de.rs:40-294 | every successful scalar read fits its shape; `any` and `ignored_any` always fail; `Option`, floats, `char`, bytes and enums panic |
| Deserialize.FromResult | simple-postgres/src/de.rs:22-28 | a successful scalar fits its shape; a sequence over no rows is the empty list; a map over no columns is the empty map |
| Deserialize.RowStep | simple-postgres/src/de.rs:446-449 | one row of a scalar sequence: a value moves to the next row, an error is returned after moving it, a panic stops |
| Deserialize.RowsGather | simple-postgres/src/de.rs:443-454 | the row loop gives the list of the per-row reads, or the first failure |
| Deserialize.TupleStep | simple-postgres/src/de.rs:510-514 | one tuple element: a value moves to the next column, an error is returned after moving it, a panic stops |
| Deserialize.TupleGather | simple-postgres/src/de.rs:504-518 | the tuple loop gives the tuple of the per-column reads, the length error, or the first failure; success ends one column past the last element |
| Deserialize.FieldsGather | simple-postgres/src/de.rs:469-489 | with columns naming the fields in order, the struct read is the struct of the per-column reads or the first failure, and ends past the last column |
| Deserialize.StructRowsGather | simple-postgres/src/de.rs:443-454 | a vector of such structs is the list of the per-row structs, or the first failure |
| Deserialize.StructByName | simple-postgres/src/de.rs:371-381 | with columns naming fields in any order: a failed read gives the first failure; otherwise the first field that is neither named nor an `Option` is `missing_field`, and with none, field i is the read of the column named after it, or None for an `Option` no column names |
| Deserialize.NamedStructFields | simple-postgres/src/de.rs:371-381 | serde's end-of-struct check over the values read by name |
| Deserialize.PresentByName | simple-postgres/src/de.rs:411-416 | after all columns, the fields seen are exactly those a column names |
| Deserialize.OptionFieldMissing | simple-postgres/src/de.rs:362-381 | a struct `{a: i64, b: Option<i64>}` over the single column `a` reads `b` as None |
| Deserialize.EntryStep | simple-postgres/src/de.rs:472-489 | one map entry reads its key and its value from the same cell, then moves one column on |
| Deserialize.EntriesGather | simple-postgres/src/de.rs:469-489 | from any column, an entry loop whose entries all read gives the entries so far plus one per remaining column |
| Deserialize.EntriesFail | simple-postgres/src/de.rs:469-489 | otherwise the first entry that fails decides the answer |
| Deserialize.MapOfScalars | simple-postgres/src/de.rs:362-369 | a map of scalars holds one entry per column, entry k from column k, when every entry reads; otherwise it is the first failure |
| Deserialize.MapKeyIsCellText | simple-postgres/src/de.rs:472-481 | as written, a `HashMap<String, String>` over columns `a`, `b` and row `x`, `y` is `{x: x, y: y}` |
| Deserialize.IntendedDecodeEntries | simple-postgres/src/de.rs:469-489 | corrected: a successful map read ends past the last column |
| Deserialize.NameKey | simple-postgres/src/de.rs:415 | a column name read as a string key is the name itself |
| Deserialize.IntendedEntryStep | simple-postgres/src/de.rs:472-489 | corrected: one entry is the column's name and its cell's value |
| Deserialize.IntendedEntriesByName | simple-postgres/src/de.rs:469-489 | corrected: a map keyed by name holds one (name, value) entry per column, in column order |
| Deserialize.IntendedMapKeyIsName | simple-postgres/src/de.rs:472-481 | corrected: that map is `{a: x, b: y}` |
| Deserialize.Deserializer.constructor | simple-postgres/src/de.rs:16-19 | a fresh deserializer stands at row 0, column 0 |
| Deserialize.Deserializer.Deserialize | simple-postgres/src/de.rs:37-426 | the method's answer and new cursor are `Decode`'s |
| Deserialize.Deserializer.DeserializeSeq | simple-postgres/src/de.rs:324-330 | the imperative row loop gives `DecodeRows`' answer and cursor |
| Deserialize.Deserializer.DeserializeTuple | simple-postgres/src/de.rs:338-345 | the imperative column loop gives `DecodeTuple`'s answer and cursor |
| Deserialize.Deserializer.DeserializeStruct | simple-postgres/src/de.rs:362-381 | resetting the column, then the key/value loop, gives `DecodeFields`' answer and cursor |
| Deserialize.Deserializer.DeserializeMap | simple-postgres/src/de.rs:362-369 | resetting the column, then the entry loop, gives `DecodeEntries`' answer and cursor |
| Deserialize.BoolTable | simple-postgres/src/de.rs:61-90 | a text cell reads as `b` exactly when it is one of `b`'s five words; other text is `ExpectedBoolean`; NULL, bad UTF-8 and binary columns panic |
| Deserialize.IntReadsI64 | simple-postgres/src/de.rs:94-158 | every width parses the text as `i64`: a parse failure panics, and the value is returned exactly when it fits the type |
| Deserialize.IntCellReadsBack | simple-postgres/src/de.rs:115-130 | the decimal text of an in-range integer reads back as that integer |
| Deserialize.StringOfNull | simple-postgres/src/de.rs:221-223 | a NULL cell read as a string is `UnexpectedNull` |
| Deserialize.StringUnchanged | simple-postgres/src/de.rs:202-219 | a non-NULL cell outside a `timestamptz` column reads back unchanged |
| Deserialize.UnitIff | simple-postgres/src/de.rs:270-294 | unit succeeds with no columns or no rows; otherwise exactly when the cell is NULL, and it is `ExpectedNull` when not |
| Deserialize.AnyAndIgnoredFail | simple-postgres/src/de.rs:40-45 | `deserialize_any` and `deserialize_ignored_any` always fail, and leave the cursor alone |
| Deserialize.StructAndMapIgnoreColumn | simple-postgres/src/de.rs:366 | only struct and map reads reset the column, so their start column does not matter |
| Deserialize.ScalarStays | simple-postgres/src/de.rs:61-294 | a scalar read leaves the cursor where it was |
| Deserialize.RowsOfScalar | simple-postgres/src/de.rs:443-454 | a sequence of scalars succeeds exactly when every remaining row's cell reads, with one element per row in order; otherwise it gives the first failure |
| Deserialize.SeqOfScalar | simple-postgres/src/de.rs:443-454 | `Vec<T>` of a scalar has exactly `ntuples` elements, in row order |
| Deserialize.TupleOfScalars | simple-postgres/src/de.rs:507-518 | a tuple reads columns from the current one; too few columns is `InvalidLength` of the columns read |
| Deserialize.TupleOfValues | simple-postgres/src/de.rs:338-345 | a tuple whose cells all read is the tuple of their values |
| Deserialize.StructInColumnOrder | simple-postgres/src/de.rs:469-489 | a struct whose columns name its fields in order reads field i from column i of the row |
| Deserialize.VecOfStructs | simple-postgres/src/de.rs:443-454 | a vector of such structs holds one struct per row |
| Deserialize.VecOfTuplesFails | simple-postgres/src/de.rs:443-454 | as written, a vector of tuples over two or more rows fails with `InvalidLength(0)` |
| Deserialize.IntendedVecOfTuples | simple-postgres/src/de.rs:443-454 | corrected: with the column reset per row, it holds one tuple per row |
| Deserialize.IntendedRows | simple-postgres/src/de.rs:443-454 | corrected: a success is a list extending the values read so far by at most one element per remaining row |
| Deserialize.IntendedRowsGather | simple-postgres/src/de.rs:443-454 | corrected: a vector of tuples is the list of the per-row tuple reads from column 0, or the first failure |
| Deserialize.U64AboveI64Panics | simple-postgres/src/de.rs:153-158 | as written, the text of a `u64` above `i64::MAX` panics |
| Deserialize.IntendedU64Reads | simple-postgres/src/de.rs:153-158 | corrected: every `u64` reads back from its decimal text |
| Deserialize.IntendedDecodeInt | simple-postgres/src/de.rs:153-158 | corrected: an integer read lies in its type's range, and only types other than `u64` give `InvalidValue` |
| RoundTrip.CString | simple-postgres/src/lib.rs:20-24 | a server reading a parameter as a C string takes the bytes up to the first 0 |
| RoundTrip.CStringOfTerminated | simple-postgres/src/lib.rs:20-24 | a value with no 0 in its text is read back whole |
| RoundTrip.ServerMax | simple-postgres/src/lib.rs:52-60 | an INT2 column holds up to 32767, an INT4 up to 2147483647, and no column more than `i64::MAX` |
| RoundTrip.EchoesSigned | simple-postgres/src/lib.rs:52-60 | a valid integer is echoed exactly when its column type holds it: `u16` up to 32767, `u32` up to 2147483647, `u64` up to `i64::MAX`, the other widths always |
| RoundTrip.Echo | simple-postgres/src/lib.rs:104-113 | the echoed result has one column per parameter and one row holding a cell per value |
| RoundTrip.EchoCell | simple-postgres/src/lib.rs:104-113 | the echoed cell of parameter i has its type, the text format, and its text |
| RoundTrip.TextReadsBack | simple-postgres/src/de.rs:94-229 | a text cell holding a parameter's text reads back as the parameter's value |
| RoundTrip.EchoReadsBack | simple-postgres/src/de.rs:94-229 | every echoed parameter reads back from its own column |
| RoundTrip.EchoRowReadsBack | simple-postgres/src/lib.rs:104-113 | every echoed parameter reads back from its own column of row 0 |
| RoundTrip.EchoedTuple | simple-postgres/src/de.rs:338-345 | a grid whose first cells read as the given values reads as the tuple of them |
| RoundTrip.TupleRoundTrip | simple-postgres/src/lib.rs:104-113 | echoing any list of parameters that survive the echo and reading them back as a tuple gives the values sent, in order |
| RoundTrip.ScalarRoundTrip | simple-postgres/src/lib.rs:104-113 | one echoed parameter reads back as its value |
| Events.ParseTouchEventType | src/event.rs:261-267 | an accepted name is the name of the type returned |
| Events.ParseTypeName | src/event.rs:261-267 | the parse returns `t` exactly for `t`'s name |
| Events.ParseAcceptsExactlyFour | breakout/src/event.rs:62-68 | exactly the four touch type names are accepted |
| Events.OwnIndexDistinct | src/event.rs:444-448 | a map sending each touch to its own index leaves no two touches one identifier |
| Events.IdMapLastWins | src/event.rs:446-448 | the initial map holds exactly the tracked identifiers, each mapped to its last index |
| Events.IdMapExact | src/event.rs:446-448 | with distinct identifiers, the initial map is exact |
| Events.IdMapOf | src/event.rs:446-448 | every mapped identifier maps to an index holding a touch with that identifier |
| Events.IdMapKeys | src/event.rs:446-448 | the map's keys are exactly the tracked identifiers |
| Events.IdMapLast | src/event.rs:446-448 | each identifier maps to its last index |
| Events.Swapped | src/event.rs:474-477 | swap-with-last-then-pop removes one element; survivors keep their data; the last element takes position i |
| Events.BuildIdMap | src/event.rs:444-448 | the loop builds `IdMapOf` |
| Events.ListedIds | src/event.rs:465-469 | the retain set is the set of listed identifiers |
| Events.Put | src/event.rs:453-460 | a put panics exactly when the identifier maps to an index past the end; otherwise the touch is tracked and mapped; no key is lost |
| Events.PutEach | src/event.rs:452-461 | no key is lost, and without a panic every listed identifier ends up mapped |
| Events.SwapRemove | src/event.rs:471-482 | the removal loop keeps the touches before `i`, and from `i` on only touches whose identifier is listed |
| Events.DropEntry | src/event.rs:474-477 | the removed identifier stays mapped only when the last touch has it too (and, corrected, is not itself removed); every identifier but the moved one keeps its entry |
| Events.RetainMap | src/event.rs:471-482 | the removal loop maps no identifier that was neither mapped nor tracked |
| Events.Apply | src/event.rs:450-485 | End and Cancel never panic and leave only listed identifiers; after a Start or Move without a panic every listed identifier is mapped |
| Events.Run | src/event.rs:443-486 | after a batch ending in End or Cancel only its listed identifiers remain; a panic only comes from a Start or Move |
| Events.SwapRemoveMembers | src/event.rs:471-482 | a touch survives End/Cancel exactly when it was tracked and its identifier is listed |
| Events.TouchTracker.constructor | src/event.rs:439-441 | a new tracker has no touches |
| Events.TouchTracker.Update | src/event.rs:443-486 | the new touches and the panic flag are `Run` over the batch; distinct identifiers stay distinct |
| Events.TouchTracker.PutTouches | src/event.rs:452-461 | the Start/Move loop gives `PutEach` |
| Events.TouchTracker.RetainListed | src/event.rs:471-482 | the End/Cancel `while` loop gives `SwapRemove` and `RetainMap` |
| Events.PutKeepsOwnIndex | src/event.rs:453-460 | a tracked identifier is overwritten in place at its own index; an unmapped one is appended |
| Events.PutEachKeepsOwnIndex | src/event.rs:452-461 | every tracked identifier keeps mapping to its own index through Start/Move |
| Events.DropEntryKeepsOwnIndex | src/event.rs:474-477 | one removal keeps every survivor mapped to its own index |
| Events.RetainKeepsOwnIndex | src/event.rs:471-482 | the whole removal loop keeps that |
| Events.RunKeepsOwnIndex | src/event.rs:450-485 | the whole batch keeps that |
| Events.UpdateKeepsDistinct | breakout/src/event.rs:244-281 | identifiers distinct on entry stay distinct through the batch |
| Events.StaleEntry | src/event.rs:474-477 | removing the last element re-inserts its identifier with the new length as index |
| Events.SwapRemoveCounts | src/event.rs:472-481 | after End/Cancel, each touch occurs as often as before if listed, and not at all otherwise |
| Events.EndKeepsListed | breakout/src/event.rs:262-281 | after End/Cancel, the tracked identifiers are exactly the old ones that were listed |
| Events.IndexOf | src/event.rs:453 | finds a tracked identifier's first index, or reports that it is not tracked |
| Events.Upserted | src/event.rs:452-461 | reference: the touch is present, the length grows by at most one, and touches with other identifiers stay in place |
| Events.Reference | src/event.rs:450-485 | reference: after a batch ending in End or Cancel only its listed identifiers remain |
| Events.PutKeepsExact | src/event.rs:453-460 | from an exact map a put never panics, gives the reference upsert and keeps the map exact |
| Events.PutEachKeepsExact | src/event.rs:452-461 | so do all the touches of a Start or Move |
| Events.DropEntryKeepsExact | src/event.rs:474-477 | the corrected removal keeps the map exact |
| Events.RetainKeepsExact | src/event.rs:471-482 | so does the corrected removal loop |
| Events.CorrectedRunIsReference | src/event.rs:450-485 | corrected: from an exact map the batch never panics and yields the reference upsert/filter result |
| Events.CorrectedUpdateIsReference | src/event.rs:443-486 | corrected: for distinct identifiers, update is the reference |
| Events.StaleEntryPanics | src/event.rs:453-454 | as written, End then Move of the only touch indexes an empty vector |
| Events.StaleEntryOverwrites | src/event.rs:474-477 | as written, End, Start of another touch, then Move overwrites the new touch |
| Events.EndOfOnlyTouch | src/event.rs:474-477 | as written, ending the only touch leaves no touches, with its identifier still mapped to 0 |
| Events.StartAfterStale | src/event.rs:453-460 | after that, another touch starts at index 0 and a Move of the first one overwrites it |
| Events.ReferenceAfterEnd | src/event.rs:452-461 | the reference instead keeps both touches |
| Events.KeyboardState.constructor | src/event.rs:495 | no key starts down |
| Events.KeyboardState.KeyDown | src/event.rs:504 | keydown adds the key; no other key changes |
| Events.KeyboardState.KeyUp | src/event.rs:519 | keyup removes the key; no other key changes |
| Events.LastAbout | breakout/src/event.rs:301-315 | the last key event about a key, or none when no event is about it |
| Events.LastEventDecides | breakout/src/event.rs:301-328 | a key is down exactly when its last event was a press, or it was down before and has no event |
| Events.Held | breakout/src/event.rs:300-316 | a key held after the events was held before or pressed by one of them; a key held before and not after was released by one of them |
| Game.NewGame | src/game/mod.rs:128-162 | a new game is in Gameplay with 1 life, score 4001, `last_time` = time, the ball placed once and bat input 0 |
| Game.LoseLife | src/game/mod.rs:92-104 | lives drop by one and saturate at 0; while nonzero the ball is reset and the stage kept; at 0 GameOver at the real time; nothing else changes |
| Game.BatDirection | src/game/mod.rs:331-350 | left wins, then right; with neither, the last touch decides by `client_x < 500`; 0 only with no arrow and no touch |
| Game.TouchDirection | src/game/mod.rs:342-348 | a touch steers left (-1) exactly when `client_x < 500`, otherwise right (1) |
| Game.StepOf | src/game/mod.rs:360-386 | a Gameplay step adds the brick hits and keeps stage and lives while the ball stays in; GameOver becomes ScoreBoard exactly when the pause has passed; ScoreBoard keeps stage, score and lives; sim time advances by one step |
| Game.Steps | src/game/mod.rs:360-386 | n steps advance sim time by n steps and change neither real time nor `last_time` |
| Game.StepCount | src/game/mod.rs:356-360 | the number of steps: `time - ε - last_time` when more than one step `ε` has passed, else none |
| Game.Simulated | src/game/mod.rs:356-388 | after the frame, real time is the frame's time and `last_time` is advanced by the step count |
| Game.GameState.constructor | src/game/mod.rs:150-162 | `init` is `NewGame` and is consistent |
| Game.GameState.Restart | src/game/mod.rs:311 | replacing the state with `init` gives `NewGame` |
| Game.GameState.DecreaseLives | src/game/mod.rs:92-104 | the method gives `LoseLife` of its old state |
| Game.GameState.HandleEvents | src/game/mod.rs:292-323 | the event loop gives `KeysOf` |
| Game.GameState.SetBatInput | src/game/mod.rs:331-350 | the method changes only the bat input, to `BatDirection` |
| Game.GameState.Step | src/game/mod.rs:364-385 | one turn of the stepping loop gives `StepOf` |
| Game.GameState.Simulate | src/game/mod.rs:356-388 | the stepping loop gives `Simulated` |
| Game.GameState.Update | src/game/mod.rs:284-391 | a whole frame gives `Frame` and keeps `Consistent` |
| Game.Frame | src/game/mod.rs:284-391 | a frame ends at real time `time`, with `last_time` the later of its value after the keys and `time - ε` |
| Game.KeyUpOf | src/game/mod.rs:302-316 | a released key restarts the game, or changes only the brick-row reset count, which never drops; the stage changes only from ScoreBoard, by restart |
| Game.KeyUpEffects | src/game/mod.rs:302-316 | Space resets the brick row once and nothing else; Enter in ScoreBoard restarts; any other key changes nothing |
| Game.KeysOf | src/game/mod.rs:292-323 | the key events keep the stage or move it to Gameplay; outside ScoreBoard they change only the brick-row reset count |
| Game.StepKeepsConsistent | src/game/mod.rs:364-382 | a step keeps "Gameplay exactly while a life is left" |
| Game.StepsKeepConsistent | src/game/mod.rs:360-386 | so do n steps |
| Game.KeysKeepConsistent | src/game/mod.rs:292-323 | so do the key events |
| Game.FrameKeepsConsistent | src/game/mod.rs:284-391 | so does a whole frame |
| Game.FirstLossEndsGame | src/game/mod.rs:95-103 | with one life, the first lost ball ends the game and the ball is never reset |
| Game.StepFollowsCycle | src/game/mod.rs:376-381 | a step keeps the stage or moves it one place along Gameplay→GameOver→ScoreBoard |
| Game.KeyUpFollowsCycle | src/game/mod.rs:302-316 | a released key keeps the stage or moves ScoreBoard to Gameplay |
| Game.StepsMoveForward | src/game/mod.rs:360-386 | within a frame the stage only moves forward and the score never drops |
| Game.ScoreAccumulates | src/game/mod.rs:365-372 | while no ball is lost, the score grows by the sum of the brick hits |
| Game.KeysRestartOnlyFromScoreBoard | src/game/mod.rs:302-316 | the keys leave the state as it was, except for the brick row, or restart it, and only from ScoreBoard |
| AdminReset.NewPassword | admin-reset/src/main.rs:4-34 | exactly `length` characters (so `new_password(0)` is empty), all from `a-z0-9`; character 2k is the k-th OsRng draw mod 36, and 2k+1 the k-th ChaCha draw mod 36 |
| AdminReset.Pieces | admin-reset/src/main.rs:60 | the pieces between newlines hold no newline |
| AdminReset.PiecesJoin | admin-reset/src/main.rs:60 | the pieces joined back with newlines are the text |
| AdminReset.PiecesOfJoin | admin-reset/src/main.rs:60 | newline-free pieces joined with newlines split back into themselves |
| AdminReset.StripCr | admin-reset/src/main.rs:60 | a line loses one trailing `\r`, and only that |
| AdminReset.LinesOfTerminated | admin-reset/src/main.rs:60 | lines each ended by `\n` or `\r\n` read back as themselves |
| AdminReset.Lines | admin-reset/src/main.rs:60 | the lines are the newline-separated pieces, each with one trailing `\r` stripped, without a final empty piece; no line holds a newline |
| AdminReset.FirstContaining | admin-reset/src/main.rs:61-63 | the first line that contains the host, or none when no line does |
| AdminReset.Find | admin-reset/src/main.rs:67 | the first index where `=>` occurs, or none |
| AdminReset.SplitWhitespace | admin-reset/src/main.rs:70 | the tokens are non-empty and hold no white space |
| AdminReset.SplitWhitespaceReassembles | admin-reset/src/main.rs:70 | the tokens interleaved with white-space gaps rebuild the text: the first gap is the leading white space and the inner gaps are non-empty |
| AdminReset.FirstWord | admin-reset/src/main.rs:70 | the first token is followed by white space or the end |
| AdminReset.AfterArrow | admin-reset/src/main.rs:66-70 | None exactly when the line has no `=>`; otherwise the tokens after its first `=>` |
| AdminReset.ConnectionProperties | admin-reset/src/main.rs:59-70 | the parse panics exactly when no line names the host, or when its trimmed line has no `=>`; otherwise the tokens are the white-space split of the text after the first `=>` of the trimmed line, with quotes, commas and spaces trimmed from both ends |
| AdminReset.PrefixesExclusive | admin-reset/src/main.rs:75-83 | no token carries two of the three prefixes |
| AdminReset.ReadProperties | admin-reset/src/main.rs:72-84 | the `for` loop sets each field to `ValueOf` its prefix |
| AdminReset.ValueOf | admin-reset/src/main.rs:74-84 | a non-empty field value is the rest of a token carrying the field's prefix |
| AdminReset.LoadCredentials | admin-reset/src/main.rs:53-87 | panics exactly when `ConnectionProperties` does; otherwise the credentials are `CredentialsOf` the tokens |
| AdminReset.LastPropertyWins | admin-reset/src/main.rs:74-84 | a field is the rest of the last token with its prefix: a later token overrides an earlier one |
| AdminReset.MissingPropertyEmpty | admin-reset/src/main.rs:44-50 | a field no token sets stays empty |
| AdminReset.TypicalProperties | admin-reset/src/main.rs:74-84 | `host=… dbname=games user=admin password=secret` gives those three values, and the host is ignored |

## Left out

- **Networking and I/O.** The `libpq` connection and `exec_params`, the body of `query`, the `HOME` lookup and the file read of `load_credentials`, and `run_python`, ssh, argon2 and base64 in `admin-reset` are network, process or file I/O. `RoundTrip` stands in for a server that echoes its parameters.
- **Browser code.** DOM, overlay, rendering and wasm code and the JavaScript property readers in both `event.rs` files are foreign calls. The scoreboard's proof of work, `player_name` and `persist_score` are left out for the same reason. So are their `?` error paths on Enter in ScoreBoard.
- **Physics and timers.** Ball flight, bat clamping, brick layout and brick timers (`update_ball`, `update_bat`, `bricks.update` and their `?` errors) are floating-point physics. The ball's report for each step is an input.
- **Time.** Time is whole hundredths of a second. The floating-point drift of `current += 0.01` is not modelled.
- **Constructor arguments.** `reset_position` and `reset_last_row` are counted (`ballResets`, `rowResets`), not modelled. `canvas_size` is not modelled.
- **The keyboard and touch inputs of a frame.** `keyboard_state.update_legacy` is not part of this model. The keyboard's answers for the arrows and the tracker's touches are parameters of `Game.GameState.Update`.
- **Uncalled `unimplemented!()` methods.** Floats, `char`, bytes, enums and binary-format columns are the single `Panic` outcome. Reading an `Option` value panics too, since `deserialize_option` is unimplemented (simple-postgres/src/de.rs:255-267). A struct field of `Option` type that no column names is still None: serde fills it in at the end of the struct (`Deserialize.OptionFieldMissing`).
- **Timestamps.** The timestamptz re-formatting is a given function.
- **The `libpq` accessors out of range.** `value` gives None and `field_format` gives text. `field_type` gives 0, and `field_name` gives None, which its `unwrap` turns into a panic.
- **C strings.** The echo server reads text parameters as C strings, so a string holding U+0000 is cut at it; `RoundTrip.Echoes` excludes it.
- StatementSplitter.Step: `is_alphabetic` and `is_alphanumeric` are taken as ASCII letters and digits. Unicode's Alphabetic property is not modelled, so a tag that starts with a non-ASCII letter is not followed.
- **Hash maps.** A `HashMap` result (`MapV`) is the list of entries in the order they are read. In Rust a later entry with the same key replaces the earlier one; the list keeps both.
- RoundTrip.Echo: the stand-in server puts every parameter's text in its cell without the range check a real server applies by OID; that refusal is expressed by `RoundTrip.Echoes`, which every round-trip lemma requires.
- RoundTrip.Echoes: the echo server is not part of this model. It is taken to refuse an integer its column type (`smallint`, `integer`, `bigint`, chosen by OID) cannot hold, so `u16` above 32767, `u32` above 2147483647 and `u64` above `i64::MAX` are not echoed (`RoundTrip.EchoesSigned`).
- **Integer widths.** A touch identifier (a `u32`) is a `nat`, and touch coordinates (`f32`) are `real`. `lives` (a `u32`) is a `nat`, and `score` (an `i64`) an `int`; with the score starting at 4001 and only growing, the `i64` bound is not modelled.
- **`new_password`'s string length.** `result.len()` counts bytes; every character pushed is ASCII, so it equals the character count used here.
- **`src/game/mod.rs` against the context files.** It does not agree with them in two places; the model follows `src/game/mod.rs`:
  - it matches `InputEvent::KeyDown { code }` and `KeyUp { code }` without the `time` field that `src/utils.rs` gives them;
  - it calls `reset_position(canvas_size)`, while `src/game/ball.rs` takes no argument.

## Findings

| source | as written | input that shows it | evidently intended | confidence | as-written member | corrected member |
|---|---|---|---|---|---|---|
| simple-postgres/src/statement.rs:54 | opening a `'` or `"` literal records the character after the quote as the tag, so the literal closes only if that character is the quote itself | `SELECT 'a'; SELECT 1` is one statement | the quote character is the tag, and the statement ends after `;` | high, not executed | StatementSplitter.QuoteTagCounterexample | StatementSplitter.IntendedQuoteExample |
| src/event.rs:474-477 | removing the last touch re-inserts its identifier in `id_map` at index = the new length | tracked `[a]`, batch End `[]` then Move `[a]`: `self.touches[0]` on an empty vector panics | a removed identifier leaves the map | high, not executed | Events.StaleEntryPanics | Events.CorrectedUpdateIsReference |
| simple-postgres/src/de.rs:443-454 | the row iterator never resets `col_index`, so after the first tuple the cursor stays past the last column | `Vec<(i64, i64)>` over two rows fails with `InvalidLength(0)` | one tuple per row, each read from column 0 | high, not executed | Deserialize.VecOfTuplesFails | Deserialize.IntendedVecOfTuples |
| simple-postgres/src/de.rs:153-158 | `deserialize_u64` parses the cell as an `i64` | the text of `u64::MAX` makes the `unwrap` panic | parse as `u64` | high, not executed | Deserialize.U64AboveI64Panics | Deserialize.IntendedU64Reads |
| simple-postgres/src/de.rs:472-481 | `next_key_seed` reads the key from the current cell, like the value | columns `a`, `b` with row `x`, `y` read as `HashMap<String, String>` give `{x: x, y: y}` | the key is the column's name, giving `{a: x, b: y}` | medium, not executed | Deserialize.MapKeyIsCellText | Deserialize.IntendedMapKeyIsName |
