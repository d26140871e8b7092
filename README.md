# OCR SR backend: code selection and results table

This project models the backend of a small OCR service in Dafny. The service reads an
"SR code" from a photo of a printed label. A scan request goes through these steps:

1. Decode the uploaded image.
2. Convert it to grayscale and blur it.
3. Run the text recogniser once.
4. Pick one code from the recognised text.
5. Append a `{SR, timestamp}` row to a shared results spreadsheet.
6. Reply with the code and the new number of rows.

Two more requests read that spreadsheet: one returns its row count and one downloads it.

The model has four files:

- `selection.dfy` (module `Selection`) picks the code using pure functions over `string`:
  - Rule A takes the leftmost whole-word run of exactly eight digits (`\b(\d{8})\b`).
  - Rule B applies when Rule A finds nothing. It takes the first greedy `\d{8,9}` match.
  - When neither rule matches, the code is the sentinel `"NOT FOUND"`.
  - The lemmas characterise the result in terms of digit runs. They cover which token wins, how a long run is truncated, when the sentinel is chosen, and several worked examples.
- `ledger.dfy` (module `Ledger`) models the results file. Class `ResultsFile` holds three fields:
  - whether the file exists;
  - whether reading it succeeds;
  - the rows it holds.

  `Append` is the scan's read-modify-write. It reads the table, treating a missing or unreadable file as no table. It appends one row and then replaces the file. In the source that replacement goes through a temporary file and an atomic rename. Here it is one assignment. `CountQuery` and `Download` are the two read-only requests.
- `scan.dfy` (module `Scan`) models the whole scan request as the tagged outcome `Ok(sr, rows)`, `BadImage` (400) or `ProcessingError(detail)` (500). An undecodable image is rejected before the table is read. A recogniser or write failure is a 500 and never a `"NOT FOUND"` code. In all three failure cases the table is unchanged.
- `wrappers.dfy` (module `Wrappers`) holds the `Option` datatype.

The backend has one behaviour worth noting. When the results file exists but cannot be read, a scan replaces it with a table holding only the new row. All earlier rows are lost. The model keeps this behaviour: see `Ledger.Updated` and `Ledger.ResultsFile.Append`.

## Model

| member | source | states |
|---|---|---|
| `Selection.RunLength` | Beckend/main.py:82 | the digit run at a position: every character in it is a digit and the next character is not |
| `Selection.FirstToken` | Beckend/main.py:81 | Rule A's search returns the leftmost position where `\b\d{8}\b` matches, or nothing when no position matches |
| `Selection.FirstRun` | Beckend/main.py:82 | Rule B's search returns the leftmost position where eight digits start, or nothing when there is none |
| `Selection.GreedyLength` | Beckend/main.py:82 | the greedy `\d{8,9}` match is 8 or 9 digits long, and it is 8 only when a ninth digit does not follow |
| `Selection.SelectCode` | Beckend/main.py:81-82 | selection is total: the result is `"NOT FOUND"` or a substring of the text of 8 or 9 digits |
| `Selection.SentinelIsNotACode` | Beckend/main.py:82 | the sentinel is not a digit string, so it can never be taken for a code |
| `Selection.TokenIsIsolatedRun` | Beckend/main.py:81 | Rule A matches at a position exactly when a digit run of length 8 starts there and no letter, digit or `_` is next to it on either side |
| `Selection.LeftmostTokenSelected` | Beckend/main.py:81-82 | when whole-word 8-digit tokens exist, the code is the leftmost one |
| `Selection.TokenTakesPriority` | Beckend/main.py:81-82 | when some whole-word 8-digit token exists, the code is 8 digits long and is a token at or before it, even when an earlier longer run exists |
| `Selection.LeftmostLongRunSelected` | Beckend/main.py:82 | when there is no token, the code is the first min(9, run length) digits of the leftmost run of 8 or more digits, and that position starts a run |
| `Selection.NotFoundIffNoLongRun` | Beckend/main.py:82 | the code is `"NOT FOUND"` exactly when the text has no run of 8 or more consecutive digits |
| `Selection.NotFoundIffNoRun` | Beckend/main.py:82 | the sentinel is chosen exactly when Rule B's search fails; Rule A then fails too |
| `Selection.ExampleGluedToLetters` | Beckend/main.py:81-82 | `"AB12345678"` has no Rule A token, and Rule B gives `"12345678"` |
| `Selection.ExampleNineDigits` | Beckend/main.py:81-82 | `"123456789"` has no Rule A token, and Rule B gives all nine digits |
| `Selection.ExampleTenDigitRun` | Beckend/main.py:82 | `"9912345678 more text"` gives `"991234567"`: the 10-digit run is cut to its first nine digits |
| `Selection.ExampleTokenAfterLongRun` | Beckend/main.py:81-82 | in `"1234567890 12345678"` the later isolated token `"12345678"` beats the earlier 10-digit run |
| `Selection.ExampleLabelLine` | Beckend/main.py:81 | `"ID SR 12345678 batch 2"` gives `"12345678"` |
| `Selection.ExampleShortRun` | Beckend/main.py:82 | `"LOT 1234567"` gives `"NOT FOUND"` |
| `Ledger.Updated` | Beckend/main.py:88-95 | a readable table keeps all its rows, in order, with exactly one new row at the end; a missing or unreadable table becomes just the new row |
| `Ledger.UpdatesKeepOrder` | Beckend/main.py:88-91 | successive scans on a readable table add their rows at the end in the order of the scans |
| `Ledger.ResultsFile.Append` | Beckend/main.py:84-102 | the new table is `Updated(old table, row)`; the file then exists and is readable; the returned row count is the new length: old count + 1, or 1 after a missing or unreadable file; it equals what the count query then reports |
| `Ledger.ResultsFile.CountQuery` | Beckend/main.py:124-133 | the count is the number of rows of a readable file; it is 0 with a no-file reply when the file is missing, and 0 with an error reply when reading fails |
| `Ledger.ResultsFile.Download` | Beckend/main.py:111-121 | the download sends the file when it exists, with status 200, and otherwise replies 404 |
| `Scan.ScanImage` | Beckend/main.py:67-108 | an undecodable image gives 400 with the table unchanged; a recogniser or write failure gives 500 with its message and the table unchanged; otherwise the reply is `Ok(SelectCode(text), rows)` with the table appended; the reply is `Ok` exactly in the last case |

## Left out

- Image decoding, grayscale conversion and Gaussian blur (Beckend/main.py:70-78) are pixel numerics in a foreign library. Only whether decoding succeeded is modelled, as the parameter `decodable`.
- The text recogniser (Beckend/main.py:79) is an external engine. Its output text, or its failure, is the parameter `recognition`.
- Excel serialisation (`to_excel`, `read_excel`), the temporary file and `os.replace` are file I/O. They are modelled as a lossless, atomic replacement of a `seq<Record>`. The model does not capture pandas converting the types of cells it reads back.
- The timestamp comes from the clock (`datetime.utcnow().isoformat()`). It is a parameter.
- A failed write of the new table is modelled by the parameter `write`. The model does not say how much of the temporary file was written before the failure.
- The file's modification time in the count reply (Beckend/main.py:130) is not modelled. It is file-system metadata.
- `\d` and `\w` are ASCII only here: `0-9`, and `0-9 a-z A-Z _`. Python's Unicode digits and letters are not modelled.
- Concurrent scans are not modelled. The source has no locking, so two concurrent read-modify-writes can lose a row.
- FastAPI routing, CORS, `/health`, `/api/status` and the static mount (Beckend/main.py:17-64, 137) are HTTP plumbing.
- The Angular client (`camera.component.ts`, `app.routes.ts`) is not part of this model. It handles camera capture, floating-point resizing and UI messages.
