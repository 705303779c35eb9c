# Bengali customer data to invoice rows — a Dafny model

The program reads customer orders pasted as free text, some in Bengali and some in
English. It splits the text into one block per customer. From each block it takes a
record: name, address, phone, amount, note and delivery type. A record that lacks a
required field is reported as an invalid entry. The valid records are numbered as invoices.

This project models that core (`app.py`, lines 8-211). It proves what each step returns:

| file | module | models |
|---|---|---|
| `text.dfy` | `Text` | Python's `isspace`, `strip`, `split('\n')`, `'\n'.join`, substring `in`, ASCII case folding |
| `digits.dfy` | `Digits` | `bengali_to_english_digits`: a `str.maketrans` table applied by `str.translate` |
| `phone.dfy` | `Phone` | `extract_phone_number`: the two patterns tried in order, each searched leftmost-first |
| `amount.dfy` | `Amount` | `extract_amount`: the amount pattern, then the fallback to the first number |
| `segmenter.dfy` | `Segmenter` | `extract_customer_blocks`, as a loop proved against a function of the input |
| `offers.dfy` | `Offers` | "first non-empty" and "last present" over a list, used to state the extracted fields |
| `extractor.dfy` | `Extractor` | `process_customer_block`, as a loop proved against a function of the block |
| `validator.dfy` | `Validator` | `validate_data` and the record it accepts |
| `pipeline.dfy` | `Pipeline` | the body of `main` after the button press: partition, invoice numbering, outcome |

Each regular expression is modelled on the one thing it is used for here:
- a scan for the leftmost match, for `re.search`;
- a prefix test, for `re.match` and `^` with `re.sub`;
- an operation on the list of lines, for the blank-line patterns of lines 56 and 59.

Where a function stands for a regex, its doc comment explains why the greedy match
needs no backtracking.

## Model

| member | source | states |
|---|---|---|
| Digits.BengaliToEnglishDigits | app.py:8-13 | The result has the input's length. Each Bengali digit becomes the ASCII digit of the same value; every other character is kept. |
| Digits.MakeTransAt | app.py:12 | For a source string without repeats, the `maketrans` table sends the i-th source character to the i-th target character. |
| Digits.DigitTable | app.py:10-12 | The table's keys are exactly the ten Bengali digits, and each maps to its ASCII digit. |
| Digits.NormalizedHasNoBengaliDigit | app.py:8-13 | No Bengali digit is left after the conversion, so converting twice gives the same result as converting once. |
| Digits.NormalizedKeepsSpaces | app.py:8-13 | A character is whitespace after the conversion exactly when it was before. It is an ASCII digit after the conversion exactly when it was an ASCII or a Bengali digit. |
| Phone.Search | app.py:26-29 | A match of either phone pattern yields a group of eleven ASCII digits. |
| Phone.SearchNone | app.py:27 | A search fails exactly when no match starts at or after the starting position. |
| Phone.SearchSome | app.py:27-29 | When `i` is the first match position, the search returns group 1 of the match at `i`. |
| Phone.CountryCodeRedundant | app.py:21-30 | Trying `\+88(\d{11})` after `(\d{11})` never changes the result: wherever the second matches, the first matched already. |
| Phone.PhoneAbsent | app.py:15-31 | The result is `None` exactly when the converted line has no run of eleven consecutive digits. |
| Phone.PhoneIsLeftmostRun | app.py:15-31 | A found phone is eleven ASCII digits. It is the first eleven digits of the leftmost run of eleven or more: no earlier position starts eleven digits, and no digit comes just before it. |
| Phone.ExtractPhoneNumber | app.py:15-31 | Stated by `PhoneAbsent` and `PhoneIsLeftmostRun`. |
| Phone.FirstWindowExists | app.py:27 | When eleven digits start at `i`, there is a first position at or before `i` where eleven digits start. |
| Amount.DigitRunEnd | app.py:39 | `\d+` taken greedily: the returned end leaves only digits before it and a non-digit or the end of the text after it. |
| Amount.SearchAmountNone | app.py:39-40 | The amount pattern fails exactly when neither alternative matches at any position. |
| Amount.SearchAmountAt | app.py:39-42 | At the leftmost match position, the search returns the digit run when `(\d+)\s*টাকা` matched, and a missing group when only `Taka` matched. |
| Amount.SearchAmountFound | app.py:39-42 | A successful search has a leftmost match position, and returns what that match gives. |
| Amount.SearchNumberFound | app.py:45-47 | The fallback fails exactly when there is no digit. Otherwise it returns the maximal digit run that starts at the first digit. |
| Amount.AmountUnitFirst | app.py:33-42 | When the leftmost match is a digit run followed by `টাকা`, the amount is that whole run of digits. It is a maximal run: a match can never start inside a longer run. |
| Amount.AmountLatinTakaFirst | app.py:39-42 | When `Taka` occurs with no `<digits>টাকা` match at or before it, the result is `None`. The fallback is not tried, because the search succeeded with an empty group. |
| Amount.AmountFallback | app.py:44-49 | When neither alternative matches anywhere, the result is the first maximal digit run, or `None` when there is no digit. |
| Amount.FallbackIsDigitRun | app.py:45-47 | A number found by the fallback is a maximal run of digits in the converted text. |
| Amount.AmountIsDigitRun | app.py:33-49 | Any amount found is a non-empty string of ASCII digits, and a maximal digit run of the converted text. |
| Amount.ExtractAmount | app.py:33-49 | Stated by `AmountUnitFirst`, `AmountLatinTakaFirst`, `AmountFallback` and `AmountIsDigitRun`. |
| Segmenter.NormalizeLineEndingsSpec | app.py:54-55 | No `\r` remains, and a text without `\r` is left as it is. A text is blank after normalising exactly when it was blank before. Normalising twice gives the same result as normalising once. |
| Segmenter.NormalizeCrLf | app.py:54 | A `\r\n` becomes one `\n`, and the text on either side of it is normalised on its own. |
| Segmenter.NormalizeLoneCr | app.py:55 | A `\r` that no `\n` follows becomes a `\n`, and the text on either side of it is normalised on its own. |
| Segmenter.BlankRunEnd | app.py:56 | The first non-blank line at or after `i`: every line it skips is blank. |
| Segmenter.SplitOnBlankLines | app.py:59 | `re.split(r'\n\s*\n', ...)` gives at least one piece, and no piece is empty. |
| Segmenter.SplitCutsAtBlankRuns | app.py:59 | For lines whose first and last lines are not blank, the split cuts at every maximal run of blank lines and nowhere else. No piece holds a blank line. The lines are the pieces in order, with a non-empty run of blank lines between each two. |
| Segmenter.SegmentCuts | app.py:54-59 | For a text that is not blank, the split of its stripped lines cuts exactly at the runs of blank lines, as above. |
| Segmenter.NormalizeLineEndings | app.py:54-55 | Stated by `NormalizeLineEndingsSpec`, `NormalizeCrLf` and `NormalizeLoneCr`. Between them they determine the result on every text: split it at its first `\r` and apply them again to what follows. |
| Segmenter.CollapseBlankRuns | app.py:56 | Keeps at least one line. `SplitCollapse` and `SegmentsIgnoreCollapse` state that it changes no segment. `CollapseClean` states that it keeps the cleaned lines, and `CollapseNoNewlines` that it brings in no newline. |
| Segmenter.SplitCollapse | app.py:56-59 | Splitting on blank lines gives the same pieces whether or not the blank runs were collapsed first. |
| Segmenter.StripJoinLines | app.py:59 | The lines of the stripped text are its lines with the leading and trailing blank lines dropped, the first line trimmed on the left and the last trimmed on the right. |
| Segmenter.StripCollapse | app.py:56-59 | Stripping the text and collapsing its blank runs can be done in either order. |
| Segmenter.SegmentsIgnoreCollapse | app.py:54-59 | The segments of the prepared text are the segments of the text with only its line endings normalised. |
| Segmenter.CollapseClean | app.py:56-67 | Collapsing the blank runs and then cleaning gives the same lines as cleaning alone. |
| Segmenter.CollapseNoNewlines | app.py:56 | Collapsing the blank runs brings in no newline. |
| Segmenter.CustomerBlocks | app.py:51-94 | What `extract_customer_blocks` returns. Stated by `BlocksPreserveLines`, `BlankInputHasNoBlocks`, `BlockShape`, `LaterBlocksOpenCustomers` and `CustomerCount`. |
| Segmenter.CleanLinesShape | app.py:67 | Every cleaned line is non-empty and stripped; cleaning brings in no newline. |
| Segmenter.ExtractCustomerBlocks | app.py:51-94 | The loop returns exactly `CustomerBlocks(input)`: the merged segments joined, or the stripped input when no block was found and the input is not blank. |
| Segmenter.MergeTurn | app.py:69-84 | One turn of the loop. An empty segment is skipped. A segment that opens a customer closes the current block, if there is one. Any other segment extends the current block. |
| Segmenter.BlocksPreserveLines | app.py:54-92 | Every non-blank line of the input, stripped and in order, lands in exactly one block. The blocks read one after another give the cleaned lines of the normalised input. |
| Segmenter.BlankInputHasNoBlocks | app.py:87-92 | A blank input gives no block. Any other input gives at least one block from the loop, so the fallback of lines 91-92 is never used. |
| Segmenter.BlockCount | app.py:65-88 | There is no block when no line survives cleaning. Otherwise there is one block, plus one for each later segment that opens a customer. |
| Segmenter.LaterBlocksOpenCustomers | app.py:73-78 | Every block after the first begins with a name marker on one of its first two lines. |
| Segmenter.MergeClean | app.py:67-84 | Merging keeps every block made of clean lines: non-empty, stripped, no newline. |
| Segmenter.JoinStripped | app.py:77-88 | A non-empty list of clean lines joins into a non-empty stripped text. |
| Segmenter.BlockShape | app.py:65-92 | Every block is a non-empty list of clean lines. Stripping its joined text and splitting that on newlines gives the lines back. |
| Segmenter.CustomerCount | app.py:51-94 | The number of blocks is 0 for a blank input. Otherwise it is 1 plus the number of later segments that open a customer. |
| Text.ContainsIff | app.py:127 | Python's `sub in s`: the recursive search succeeds exactly when `sub` occurs at some position of `s`. |
| Text.ContainsAnyIff | app.py:127 | `any(keyword in line for keyword in keywords)`: it holds exactly when one of the keywords occurs in the line. |
| Offers.FirstNonEmptyIs | app.py:116-123 | "First non-empty" is empty exactly when every offer is empty. Otherwise it is an offer with only empty offers before it. |
| Offers.LastPresentIs | app.py:131-137 | "Last present" is absent exactly when no offer is present. Otherwise it is a present offer with none present after it. |
| Extractor.FirstLabel | app.py:117 | A label found is one of the labels and begins the line, ignoring ASCII case. Every label listed before it does not begin the line, so it is the first in the pattern's order. When none is found, no label begins the line. |
| Extractor.NameValueLabelled | app.py:117 | A line made of the label the search finds (in any case), any whitespace, an optional `:` or `：`, any whitespace and a stripped value gives back the value. Without a colon, the value must not start with one. |
| Extractor.LatinLabelChosen | app.py:117 | A line starting with `nam` in any case finds the label `name` when the next letter is `e` in any case, and `nam` otherwise. |
| Extractor.NameValueUnlabelled | app.py:117 | A line that starts with no label gives the stripped line. |
| Extractor.NameValue | app.py:117 | Stated by `NameValueLabelled`, `LatinLabelChosen` and `NameValueUnlabelled`. |
| Extractor.NextNonBlank | app.py:133-135 | The index found is the first at or after the start whose line is not blank: every line before it is blank. `None` means every line from the start on is blank. |
| Extractor.SkipBlankLines | app.py:133-137 | The inner loop stops at the first non-blank line after the order line, or at the end when every remaining line is blank. |
| Extractor.ProcessCustomerBlock | app.py:96-149 | The loop returns exactly `CustomerRecord(blockText)`. It keeps invariants tying name, phone, address lines, note and amount to the lines read so far. |
| Extractor.NameIsFirstOffered | app.py:116-117 | The name after `n` lines is the first non-empty value offered. A candidate that yields an empty value leaves the next candidate its turn. |
| Extractor.PhoneIsFirstOffered | app.py:119-123 | The phone after `n` lines is the phone of the first line that holds one. |
| Extractor.PhoneOfferShape | app.py:119-123 | A line offers either no phone or eleven ASCII digits. |
| Extractor.NoteIsLastOffered | app.py:131-137 | The note after `n` lines is the non-blank line after the last order line that has one. A later order line overrides an earlier one. |
| Extractor.NoteOfferNonEmpty | app.py:133-135 | A note taken from a line is never empty. |
| Extractor.AddressIsFilter | app.py:125-128 | The address lines are the stripped lines that hold an address keyword and no order keyword, in order. None of them is an order line. |
| Extractor.AddressOfSnoc | app.py:126-128 | One more line adds itself to the address lines exactly when it is an address line. |
| Extractor.RecordFields | app.py:96-149 | For the whole block: name, phone, address, note and amount in terms of the lines. The note is empty exactly when no order line has a non-blank successor. The amount is `extract_amount` of the note, or the initial empty string when there is no note. Delivery is `Home`. |
| Extractor.CustomerRecord | app.py:96-149 | What `process_customer_block` returns. Stated by `RecordFields` and `RecordShape`. |
| Extractor.RecordShape | app.py:96-149 | A record's phone is empty or eleven ASCII digits. An amount found in a note is a non-empty string of ASCII digits. |
| Validator.MissingAmongIs | app.py:151-164 | The fields reported among an ordered list are exactly the missing ones, kept in order. |
| Validator.DefectsAre | app.py:151-164 | `validate_data` reports exactly the missing fields, each once, in the order Name, Phone, Address, Amount, so at most four. |
| Validator.RankedBound | app.py:153-162 | A list of fields in strictly increasing check order has at most four entries. |
| Validator.NoDefectsIffAccepted | app.py:151-164 | Nothing is reported exactly when there is a name, an eleven-character phone, an address and a non-empty amount. |
| Validator.AcceptedRecordShape | app.py:96-164 | An accepted extracted record has a phone of eleven ASCII digits and an amount of ASCII digits. |
| Validator.Defects | app.py:151-164 | What `validate_data` returns. Stated by `DefectsAre` and `NoDefectsIffAccepted`. |
| Validator.ValidateData | app.py:151-164 | The appending code returns `Defects(data)`. |
| Pipeline.Invoices | app.py:211 | The invoice column runs 1, 2, ... along the valid records. |
| Pipeline.PartitionBlocks | app.py:182-195 | The loop's two lists are `Kept` and `Rejected` of the blocks' records. |
| Pipeline.ProcessAllData | app.py:173-211 | The button handler ends in `InputOutcome(userInput)`. |
| Pipeline.PartitionCounts | app.py:186-195 | Every record lands in exactly one of the two lists. |
| Pipeline.KeptAccepted | app.py:192-195 | A record is kept exactly when it is one of the records and is accepted. |
| Pipeline.RejectedShape | app.py:186-193 | Each invalid entry gives a 1-based position within range, the record at that position, and its non-empty missing fields. The positions strictly increase. |
| Pipeline.RejectedIffNotAccepted | app.py:186-193 | Record `k` is reported invalid, at position `k + 1`, exactly when it is not accepted. |
| Pipeline.KeptInOrder | app.py:186-195 | The `j`-th kept record is the input record at the `j`-th of a strictly increasing list of positions, and those positions are exactly the positions of the accepted records. So the kept records are the accepted ones, each once, in input order. |
| Pipeline.Kept | app.py:186-195 | The valid records, in input order. Stated by `KeptInOrder`, `KeptAccepted` and `PartitionCounts`. |
| Pipeline.Rejected | app.py:186-195 | The invalid entries, in order. Stated by `PartitionCounts`, `RejectedShape` and `RejectedIffNotAccepted`. |
| Pipeline.Summarize | app.py:184-211 | Stated by `SummaryCounts`. |
| Pipeline.InputOutcome | app.py:173-211 | Stated by `OutcomeCounts`. |
| Pipeline.BlocksReadBack | app.py:96-98 | Each block handed to the extractor splits back into the clean lines it was made of. |
| Pipeline.SummaryCounts | app.py:180-211 | The count reported is the number of blocks. "No valid data" comes exactly when every record is invalid. The table and the invalid entries together account for every record; the table is numbered 1, 2, ... and row `k` holds the `k`-th accepted record in input order (the input position `KeptIndices(records)[k]`). |
| Pipeline.OutcomeCounts | app.py:173-211 | The run stops with "No input provided." exactly for a blank input. Otherwise it summarises one record per block, reporting one entry plus one for each later segment that opens a customer. |

## Left out

- The Streamlit page (title, text area, button, messages) is left out. The button press is modelled as a call with the text area's contents, and the messages as the `Outcome` value.
- The `pandas` DataFrame, the Excel file, `tempfile`, `os` and the download button (lines 208-247) are left out. The model ends at the numbered rows that would be written.
- Pipeline.InputOutcome: the `except ImportError` and `except Exception` branches (lines 244-247) are left out. There the program shows an error instead of the table. The model always returns `Table` when there is a valid record, because the failures they catch come from the Excel libraries, which are not modelled.
- The clock used to name the file (`datetime.now`) is left out: it affects only the file name.
- The text of the warning listing invalid entries (lines 198-201) is left out. `InvalidEntry` holds what it prints: position, record and missing fields.
- `\d` is ASCII `0-9` only. Python's `\d` also matches other Unicode decimal digits. After Bengali digits are converted, this differs only for digits of other scripts.
- `re.IGNORECASE` is modelled as ASCII case folding. The markers it applies to are Bengali (which has no case) or the Latin letters `n`, `a`, `m`, `e`, none of which has a non-ASCII case partner.
- The regex engine itself is left out. Each pattern is replaced by a definition of what it matches, at the level of characters or lines.
- The `re.sub` at line 56 (`Segmenter.CollapseBlankRuns`) is modelled on the lines of the text. It replaces two or more blank interior lines by one empty line. The whitespace characters it removes therefore appear only as the loss of those blank lines, which the cleaning step at line 67 drops anyway. `SegmentsIgnoreCollapse` shows that the collapse changes no segment of line 59.
- The `amount` field of a record is an `Option<string>`. `None` is Python's `None`, which `extract_amount` returns when the note has no number. `Some("")` is the initial `""`, kept when no note is found.
- Python's `str.translate` with a table from `str.maketrans` is modelled as a map applied to each character. The code points of the two digit strings are as written in the source.
