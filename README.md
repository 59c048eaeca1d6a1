# Fixed-width transaction ledger, modelled in Dafny

The program keeps a ledger in a text file made of fixed-width records:

- one **header** line, tag `01`: name (28 characters), surname, patronymic and address (30 each);
- one **transaction** line per stored transaction, tag `02`: counter (6), amount (12) and currency (3);
- a last **footer** line, tag `03`: the number of transactions (6) and the sum of their amounts (12).

A `Storage` object does the following:
- It reads such a file into a header, a dictionary of transactions keyed by counter, and the footer.
- It auto-assigns counters to new transactions and stores them.
- It derives a fresh footer.
- It writes everything back out.

The model has five modules:

- `Wrappers` has `Option`, `Result` and `Outcome`. They stand in for `None` and for raised exceptions.
- `FieldCodec` has the Python built-ins the records rely on, over ASCII text:
  - `str.strip`;
  - `f"{s:w}"` left justification;
  - `str(n)`;
  - `f"{n:0w}"` zero padding, sign first;
  - `int(s)`;
  - slicing.
- `Records` has the three record types:
  - each has a validating constructor (`Make…`), a parser (`…FromText`) and a serialiser (`Format…`);
  - round-trip lemmas for all three;
  - the width checks restated as numeric ranges.
- `LedgerTable` has the store's contents as values:
  - the dictionary as a map plus its insertion order (`Table`), and dictionary assignment (`Put`);
  - the derived footer;
  - loading a file given as its lines (`Load`);
  - the text written by `flush` (`FlushText`);
  - the theorem that the lines a flush writes load back as the same ledger (`LoadAfterFlush`);
  - the same theorem over the written text as `readlines` splits it, when no header field or currency holds a line feed (`LoadAfterFlushText`).
- `LedgerStore` has the class `Storage`, with the fields the Python object updates in place: `header`, `footer`, `transactions`, `order` and `counter`.
  - Each method is proved against the functions of `LedgerTable`.
  - `ReadTransactions`, `SaveFooter` and `Flush` keep the loops of the original, with their invariants.

Where the source and its documentation disagree, the model follows the code:
- A transaction line is 23 characters and a footer line is 20. Neither is padded to 120.
- `save_transaction` stores a transaction under the store's `counter`, not under the transaction's own counter.
- A transaction with counter 0 passes the counter check, because `counter and counter > 20000` is false for 0.
- `save_footer` assigns its fields after construction, so the derived footer skips the footer's width checks.

Record equality (`__eq__`) compares all fields, and Dafny's datatype equality gives exactly that.

## Model

| member | source | states |
|---|---|---|
| FieldCodec.Strip | main.py:19 | `str.strip` returns a string with no whitespace at either end, no longer than its input |
| FieldCodec.StripRemovesSpaces | main.py:19-28 | the stripped field is a contiguous piece of the input, and everything cut from the front and back is whitespace |
| FieldCodec.StripStripped | main.py:19-28 | stripping a string that is already stripped changes nothing |
| FieldCodec.LeftJustifyParts | main.py:53 | `f"{s:w}"` is `s` followed only by spaces |
| FieldCodec.LeftJustify | main.py:53 | `f"{s:w}"` has length `w`, or `len(s)` when `s` is longer; it never truncates |
| FieldCodec.StripJustified | main.py:44-53 | stripping a left-justified stripped field removes exactly the padding |
| FieldCodec.Slice | main.py:46-49 | `s[i:j]` is at most `j - i` long and is the exact slice when `j <= len(s)`; when `j` is past the end it is the rest of `s` from `i`, or empty when `i` is past the end too |
| FieldCodec.IntToString | main.py:67 | `str(n)` is non-empty and starts with `-` exactly when `n` is negative |
| FieldCodec.FormatInt | main.py:95 | `f"{n:0w}"` is exactly `w` characters when `str(n)` fits, and `str(n)` unchanged otherwise |
| FieldCodec.ParseInt | main.py:89-90 | `int(s)` succeeds exactly on an optional minus sign followed by at least one digit |
| FieldCodec.ParseFormatInt | main.py:89-95 | an integer formatted zero-padded at any width parses back to itself |
| FieldCodec.IntToStringLength | main.py:105-108 | `len(str(n)) <= w` holds exactly for `0 <= n < 10^w`, or for negative `n` with `-n < 10^(w-1)` |
| Records.MakeHeader | main.py:18-30 | construction succeeds exactly when the stripped name fits 28 and the other stripped fields fit 30; it stores the stripped fields; the error names the limit of the first field that is too long |
| Records.FormatHeader | main.py:52-53 | the text starts with tag `01` and is exactly 120 characters for a valid header |
| Records.HeaderFromText | main.py:43-50 | parsing a header line never raises, whatever the text, and yields a valid header |
| Records.HeaderRoundTrip | main.py:43-53 | a valid header formatted and parsed back is the same header |
| Records.MakeTransaction | main.py:62-71 | construction succeeds exactly when the counter is absent or at most 20000, `len(str(amount)) <= 12` and `len(currency) <= 3`; the error follows the order of the checks |
| Records.FormatTransaction | main.py:94-95 | formatting fails exactly when the counter is `None`; the text starts with tag `02` and is 23 characters for a valid transaction whose counter fits 6 characters |
| Records.TransactionFromText | main.py:86-92 | a parsed transaction is valid and always has a counter |
| Records.TransactionRoundTrip | main.py:86-95 | formatting and parsing back gives the transaction with its currency space-padded to 3, and the same transaction when the currency has 3 characters |
| Records.MakeFooter | main.py:103-109 | construction succeeds exactly when `len(str(total_counter)) <= 6` and `len(str(control_sum)) <= 12`; the error names the first check that fails |
| Records.FormatFooter | main.py:128-129 | the text starts with tag `03` and is 20 characters for a valid footer |
| Records.FooterFromText | main.py:121-126 | a parsed footer is valid |
| Records.FooterRoundTrip | main.py:121-129 | a valid footer formatted and parsed back is the same footer |
| Records.ValidFooterRange | main.py:103-109 | the footer's width checks allow a count of -99999..999999 and a sum of -99999999999..999999999999, and nothing else |
| LedgerTable.Put | main.py:162 | dictionary assignment: the key maps to the new transaction and every other key is unchanged; the size grows by one exactly when the key is new; a new key goes last in iteration order and an existing key keeps its place |
| LedgerTable.ControlSumPut | main.py:173-185 | after storing, the control sum gains the new amount and loses the amount it replaced, if any |
| LedgerTable.DerivedFooterValid | main.py:175-187 | the derived footer passes the footer's own checks exactly when there are at most 999999 transactions and the sum fits 12 characters |
| LedgerTable.ParseAll | main.py:159-161 | a successful parse yields one transaction per line, each with a counter |
| LedgerTable.ParseAllOk | main.py:159-161 | parsing the transaction lines succeeds exactly when every line parses |
| LedgerTable.ParseAllAt | main.py:160-161 | the i-th parsed transaction is what the i-th line parses to |
| LedgerTable.ParseAllErr | main.py:160-161 | a failed parse has a line that does not parse |
| LedgerTable.ParseAllStep | main.py:160-161 | parsing one more line either fails the whole read with that line's error or appends its transaction |
| LedgerTable.InsertAll | main.py:160-162 | storing parsed transactions keeps the dictionary well formed |
| LedgerTable.InsertAllKeys | main.py:160-162 | after reading, a key is present exactly when it was already present or some line carried that counter |
| LedgerTable.InsertAllLastWins | main.py:160-162 | among lines with the same counter, the last one is the one stored |
| LedgerTable.BodyLines | main.py:157-159 | the transaction lines are the lines between the first and the last, and there are none in a file of fewer than two lines |
| LedgerTable.ReadHeader | main.py:149-154 | the header read from the first line, cut to 120 characters, is always valid |
| LedgerTable.Load | main.py:135-140 | loading fails exactly when a transaction line or the footer line does not parse; a loaded ledger has a valid header, a well-formed dictionary and a valid footer |
| LedgerTable.LoadFirstError | main.py:156-162 | a load fails with the error of the first transaction line that does not parse, whatever the later lines and the footer line hold |
| LedgerTable.TransactionLineParses | main.py:87-95 | a written transaction line, with its line feed, parses back to the transaction |
| LedgerTable.ParseLinesOf | main.py:192-193 | the transaction lines written for a sequence of keys parse back to the transactions under those keys, in order |
| LedgerTable.PutPrefix | main.py:160-162 | storing the next transaction in iteration order extends the rebuilt prefix of the dictionary by one entry |
| LedgerTable.InsertValuesOf | main.py:160-162 | re-storing the first `i` transactions of a dictionary keyed by counter rebuilds its first `i` entries in the same order |
| LedgerTable.RebuildTable | main.py:160-162 | re-storing every transaction of a dictionary keyed by counter, in iteration order, rebuilds the same dictionary and order |
| LedgerTable.BodyOfFlush | main.py:189-195 | the lines between the header and the footer of a flush are the transaction lines |
| LedgerTable.ReadHeaderAfterFlush | main.py:149-154 | the header read back from a flush is the header written |
| LedgerTable.ReadFooterAfterFlush | main.py:164-168 | the footer read back from a flush is the derived footer, when it is valid |
| LedgerTable.LoadBodyAfterFlush | main.py:156-162 | the transaction lines of a flush parse and store back into the same dictionary |
| LedgerTable.LoadAfterFlush | main.py:135-140 | loading the lines a flush wrote gives the same header, the same dictionary in the same order, and the derived footer |
| LedgerTable.LineEnd | main.py:151 | `readline` stops after the first line feed, or at the end of a text that has none |
| LedgerTable.SplitJoin | main.py:158 | `readlines` on text made of whole lines gives back exactly those lines |
| LedgerTable.SplitFlushText | main.py:189-195 | when no header field or currency holds a line feed, `readlines` on the text a flush wrote gives exactly the lines it wrote |
| LedgerTable.LoadAfterFlushText | main.py:135-140 | the text a flush wrote, split by `readlines`, loads as the same header, the same dictionary in the same order, and the derived footer, when no header field or currency holds a line feed |
| LedgerTable.LineFeedNameAccepted | main.py:18-30 | the header constructor accepts a name with a line feed inside it |
| LedgerTable.LineFeedInHeaderName | main.py:149-154 | a header whose name holds a line feed comes back from a flush with the name cut at the line feed, so what loads differs from what was flushed |
| LedgerStore.Storage.constructor | main.py:135-138 | a new store has counter 0, the header that was read and no transactions |
| LedgerStore.Storage.Open | main.py:135-140 | building a store succeeds exactly when the load succeeds and fails with the load's error; on success its state is the loaded ledger and its counter is 0 |
| LedgerStore.Storage.ReadTransactions | main.py:156-162 | the loop raises exactly when a line does not parse, with that line's error, and the dictionary then holds the old contents plus the transactions of the lines before it; otherwise the dictionary is the old one with every parsed transaction stored in turn |
| LedgerStore.Storage.LoadFooter | main.py:164-168 | the footer field becomes the parsed last line, or the error is raised and the field is kept; nothing else changes |
| LedgerStore.Storage.Assign | main.py:162 | `self.class_transactions[k] = x` is the dictionary assignment `Put` on the store's contents |
| LedgerStore.Storage.CreateIncrementTransaction | main.py:142-147 | the counter becomes the number of stored transactions plus one and is returned; it raises above 20000, with the counter already updated |
| LedgerStore.Storage.SaveTransaction | main.py:170-173 | a counterless transaction gets the next counter; any transaction is then stored under the store's counter, replacing any entry there; on the capacity error nothing is stored |
| LedgerStore.Storage.SaveFooter | main.py:175-187 | the loop yields the number of stored transactions and the sum of their amounts, and changes nothing |
| LedgerStore.Storage.Flush | main.py:189-195 | the output is exactly `FlushText`: the header line, each transaction's line in insertion order, then the derived footer's line |

## Left out

- File I/O is modelled over lines and text, not bytes. A file is given as its lines, and `flush` returns the text it would write.
  - Byte positioning is left out: `seek(0)`, `seek(121)` and `seek(-120, SEEK_END)`, and UTF-8 encoding and decoding. Splitting text into lines, as `readline` and `readlines` do, is modelled on characters (`LineEnd`, `SplitLines`).
  - The model reads the header from the first line, the transactions from the lines between the first and the last, and the footer from the last line.
  - `seek(121)` does land on the first transaction line, since the header line is 120 characters and a line feed.
  - `seek(-120, SEEK_END)` does not land on the footer line of a file the program itself wrote, because transaction lines are 23 characters and the footer 20, not 120. With at most four transactions it lands inside the header line, otherwise inside the currency of the fifth transaction line from the end. `read_footer` then parses the rest of that line as a footer, so the program does not read back its own footer. The model reads the footer from the last line, which is the line that offset aims at.
- `class_transactions` is a class attribute, so every `Storage` instance shares one dictionary. The model gives each store its own.
- The dictionary's key type is annotated as `str`, but the keys used are integer counters. The model keys by `int`.
- Aliasing of the caller's transaction object is left out. In the source, `save_transaction` writes the assigned counter into it. `SaveTransaction` returns the updated transaction instead.
- `save_footer`'s `is None` check can never fire, so it has no counterpart.
- Python's `int()` also accepts surrounding whitespace, a leading `+` and underscores between digits. `ParseInt` accepts only an optional `-` followed by ASCII digits.
- `str.strip` also removes non-ASCII Unicode whitespace, such as `\x85` and `\xa0`. `Strip` removes exactly the ASCII characters `str.strip` removes: space, `\t` through `\r`, and `\x1c` through `\x1f`.
- Counters, amounts and sums are unbounded integers, as in Python.
- Left out as debug text or process glue:
  - `__str__` and `__repr__`;
  - the logging setup and the unused `argparse` and `venv` imports;
  - the module-level script that opens `first.db`, saves one transaction and flushes (main.py:198-204).
- Records.TransactionRoundTrip: assumes a counter within -99999..20000. A counter below -99999 passes the constructor's check but needs more than 6 characters, so its line is longer than 23 characters.
- LedgerTable.LoadAfterFlush: assumes every transaction is stored under its own counter, each line round-trips and the derived footer is valid.
  - `save_transaction` can store a transaction under a key other than its own counter.
  - Nothing caps the number of transactions at 999999.
  - A derived control sum can be too wide for the footer's check.
  - In any of these cases the written file does not load back unchanged.
  - It is stated over the lines `flush` writes, that is, for reading line by line. `LoadAfterFlushText` states it over the written text as `readlines` splits it, and needs in addition that no header field or currency holds a line feed. The constructors let a line feed through (`LineFeedNameAccepted`), and one inside a field cuts its record in two (`LineFeedInHeaderName`).
  - Both theorems describe the line-based reading the byte offsets aim at. The source's own `read_footer` seeks 120 bytes back from the end and does not reach the footer line of the program's own output (see above).
