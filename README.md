# Rent statement generator: a verified model of its core

The application keeps, for each rented property (*imóvel*, a row of
`apartamentos`), a fixed configuration (landlord, tenant, due day, bank
details) and one ledger entry (*lançamento*) per month. An entry holds seven
amounts (rent, condominium fee, property tax, water, fire insurance, other
fees, other discounts) and one note per amount. From an entry it builds a
monthly statement. When it starts with no property yet, it creates the first
one, from the configuration of the old single-property database if there is
one, and then runs a loop that inserts the old ledger rows for that property.
That loop, as written, cannot complete on an old database whose old ledger
table holds at least one row (see "## Left out");
the model states what the loop does with the rows it is given. Everything here
is modelled from `app.py`.

The model, module by module:

- `Wrappers`: `Option`.
- `Decimal`: ASCII numerals, their values, `f"{n:0wd}"`.
- `Text`:
  - Python's `str.split`, `str.replace` on one character and `str.strip`;
  - SQLite's BINARY ordering of TEXT values.
- `Formatting`:
  - `mes_to_display` and `display_to_mes` (`YYYY-MM` ⇄ `MM/YYYY`; input that does not parse comes back unchanged);
  - `brl`, Brazilian currency via `f"{v:,.2f}"` and the separator swap.
- `Records`:
  - the rows of the three tables;
  - the dictionaries handed to `upsert_lancamento` and `save_config`, and how missing keys default.
- `Ledger`: the `lancamentos` table as a map keyed by `(apartamento_id, mes)`. It holds the functions the store's ledger methods are proved against.
- `Legacy`: what `init_db` does with the old configuration and old rows. Fallback from old columns, `INSERT OR IGNORE`.
- `Statement`: the values `generate_pdf_bytes` puts in the document. Subtotal, total, due day, the table of amounts, the proof-of-payment line. Also the history tab's row and the download file name.
- `Prefill`: the month tab's month field and the starting values of its form.
- `Store`: one class `Database` holding the three tables, with a method per store function. Each method is proved against the functions above.

Amounts are whole cents (`nat`); subtotal and total are `int`, as nothing
stops a discount from exceeding the charges. `datetime('now')` is an
abstract clock. Only the ledger writes (`UpsertLancamento`, and the migration
loop in `InitDb`) read it, and each moves it forward once; the property and
configuration methods leave it as it is. A database error that rolls back a
call is a result saying so, with the state unchanged.

The due day is stored as `int(x or 5)` (app.py:359, app.py:213): only a
missing day or 0 becomes 5, and a negative day is kept as it is
(`Records.StoredDueDay`).

## Model

| member | source | states |
|---|---|---|
| Formatting.MesRoundTrip | app.py:66-81 | a `YYYY-MM` token displays as a `MM/YYYY` token, and converting back gives the token again |
| Formatting.DisplayRoundTrip | app.py:66-81 | a `MM/YYYY` token converts to a `YYYY-MM` token, and displaying it gives the input again |
| Formatting.DisplayIsStable | app.py:66-81 | for every input `mes_to_display` parses, whatever the digit widths, the displayed text is a fixed point of converting back and displaying |
| Formatting.MesWithoutOneHyphenUnchanged | app.py:66-72 | input without exactly one `-` is returned unchanged (the `except` branch) |
| Formatting.DisplayWithoutOneSlashUnchanged | app.py:75-81 | input without exactly one `/` is returned unchanged |
| Formatting.MesToDisplay | app.py:66-72 | a text that splits at `-` into two numerals `y`, `m` becomes `m` zero-padded to 2, `/`, `y` zero-padded to 4; any other text is returned as it is |
| Formatting.DisplayToMes | app.py:75-81 | a text that splits at `/` into two numerals `m`, `y` becomes `y` zero-padded to 4, `-`, `m` zero-padded to 2; any other text is returned as it is |
| Formatting.MesToDisplayOfParts | app.py:66-72 | `y-m` with numerals `y`, `m` displays as `m` padded to 2, `/`, `y` padded to 4 |
| Formatting.DisplayToMesOfParts | app.py:75-81 | `m/y` converts to `y` padded to 4, `-`, `m` padded to 2 |
| Formatting.Brl | app.py:57-63 | `R$ ` followed by the cents written as `f"{v:,.2f}"` with `,` and `.` exchanged |
| Formatting.BrlOf | app.py:57-61 | `brl` of a value that may not be a number: one that `float()` rejects is formatted as 0 |
| Formatting.BrlRoundTrip | app.py:57-63 | reading back the digits and sign of `brl(c)` gives exactly `c` cents |
| Formatting.BrlShape | app.py:57-63 | every `brl` result starts with `R$ `, has one decimal comma, and exactly two digits after it |
| Formatting.FixedPointShape | app.py:62 | `f"{v:,.2f}"` has one point, two digits after it, and no point before it |
| Formatting.GroupThousandsDigits | app.py:62 | the `,` grouping keeps the digits and their order |
| Formatting.SwapSeparatorsAt | app.py:63 | the replace chain turns `,` into `.` and `.` into `,`, and keeps every other character |
| Formatting.SwapSeparatorsIs | app.py:63 | a string whose characters are those of `s` with the separators exchanged is the replace chain's result |
| Formatting.BrlThousands | app.py:57-63 | `brl(1234.5)` is `R$ 1.234,50` |
| Formatting.BrlNotANumber | app.py:58-61 | a value `float()` rejects is formatted as `R$ 0,00` |
| Formatting.BrlNegative | app.py:57-63 | `brl(-80)` is `R$ -80,00`: a negative total keeps its sign |
| Decimal.ValueOfZeroPad | app.py:70 | `f"{n:0wd}"` is a numeral with value `n` |
| Decimal.ZeroPadOfValue | app.py:70 | padding a numeral's value to the numeral's own width gives the numeral back |
| Text.SplitCount | app.py:69 | `split` returns one more piece than there are separators |
| Text.SplitAtSeparator | app.py:69 | `a + sep + b` without other separators splits into exactly `[a, b]` |
| Text.TrimIsInfix | app.py:292 | `strip()` keeps a contiguous piece whose ends are not whitespace, and everything it removes is whitespace |
| Text.TrimIdempotent | app.py:772 | stripping twice is stripping once |
| Text.TrimEmptyIffAllSpace | app.py:619-620 | a stripped text is empty exactly when it held nothing but whitespace |
| Text.LexTransitive | app.py:420 | SQLite's text order is transitive |
| Text.LexTotal | app.py:420 | two different texts are always ordered one way or the other |
| Text.LexAsymmetric | app.py:420 | no two texts are each below the other |
| Records.FromPayload | app.py:490-496 | the entry written has the given month; an amount missing from the dictionary is 0; a note missing or `None` is "" |
| Records.PayloadRoundTrip | app.py:819-827 | writing the dictionary the month form builds stores exactly the amounts and notes it shows |
| Records.StoredDueDay | app.py:359 | the stored due day is never 0; it is 5 exactly when the given one is missing, 0 or 5; otherwise it is the given one |
| Records.ConfigFrom | app.py:354-368 | each text column gets the dictionary's value or ""; the due day is `int(x or 5)` |
| Records.EmptyInputIsDefault | app.py:295 | saving an empty dictionary writes the row a new property gets |
| Ledger.Upserted | app.py:438-498 | the keys afterwards are the old ones plus the written key; that key holds the entry with `updated_at` now, and `created_at` is kept if the row existed; every other row is unchanged |
| Ledger.GetAfterUpsert | app.py:438-498 | reading right after writing gives the written entry; every other key reads as before |
| Ledger.UpsertIdempotent | app.py:438-498 | writing the same entry twice leaves the same amounts and notes as writing it once |
| Ledger.MesesAfterUpsert | app.py:438-498 | a write adds its month to its own property's months, and no other property's months change |
| Ledger.InMeses | app.py:170 | a month is among a property's months exactly when a row is stored under that pair |
| Ledger.LatestUnique | app.py:419-420 | the greatest month of a property is unique |
| Ledger.InsertDesc | app.py:509 | inserting a month gives the old months plus it, as a multiset |
| Ledger.InsertDescSorted | app.py:509 | inserting a new month into a descending list keeps it strictly descending |
| Ledger.HeadIsLatest | app.py:509 | the head of a descending list of exactly a property's months is its greatest month |
| Legacy.FromLegacy | app.py:251-273 | the new-table entry an old row becomes: its month, the seven amounts with the fallbacks of `or`, and empty notes |
| Legacy.InsertOrIgnore | app.py:258-273 | one `INSERT OR IGNORE`: a row with a NULL month or a taken key changes nothing; otherwise the entry is stored with both timestamps now |
| Legacy.Migrated | app.py:251-273 | the table after the loop over the old rows, one `INSERT OR IGNORE` per row, in order |
| Legacy.FromLegacyFallbacks | app.py:255-273 | water is `consumo_agua`, else `taxa_admin`, else 0; discount is `outros_descontos`, else `desconto`, else 0; other amounts are copied with a missing one as 0; notes are empty |
| Legacy.MigratedKeys | app.py:251-274 | after migration the keys are the old ones plus one per distinct non-NULL old month |
| Legacy.MigratedKeepsExisting | app.py:258-259 | `INSERT OR IGNORE` never changes a row that was already there |
| Legacy.MigratedFirstWins | app.py:251-274 | when the key was free, the row stored is the first old row of that month |
| Legacy.MigratedIdempotent | app.py:251-274 | running the migration again changes nothing |
| Legacy.MigratedOtherProperties | app.py:251-274 | other properties' rows are neither added nor changed |
| Legacy.MigratedApartamento | app.py:191-201 | the first property made from the old configuration: nickname `Imóvel 1`, the old address lines (or the built-in ones when missing or empty), stripped |
| Legacy.DefaultApartamento | app.py:226-235 | the first property made when there is no old configuration, with the built-in nickname and address |
| Legacy.MigratedConfig | app.py:200-223 | the old text columns are copied (a missing one as ""); the due day is never 0 |
| Statement.Subtotal | app.py:541 | the sum of rent, condominium fee, property tax, water, fire insurance and other fees |
| Statement.Total | app.py:542 | the subtotal minus the other discounts, with no clamping |
| Statement.TotalIsChargesMinusDiscount | app.py:541-542 | the subtotal is the sum over the six charges, the discount not among them; the total is that sum minus the discount |
| Statement.DiscountOnlyMovesTotal | app.py:541-542 | changing the discount leaves the subtotal and moves the total by the difference |
| Statement.NegativeTotal | app.py:542 | the total is negative exactly when the discount exceeds the subtotal (no clamping) |
| Statement.DueDayText | app.py:544 | the due day `int(x or 5)` formatted as `{dia:02d}`; the text has at least two characters |
| Statement.DueDayTextReadsBack | app.py:544-601 | a positive due day is printed as a numeral of at least two digits whose value is that day |
| Statement.DueDayDefault | app.py:544 | a due day of 0 is printed as `05` |
| Statement.ComprovanteLine | app.py:619-623 | the proof-of-payment paragraph: the stripped contact after `enviar para`, or the generic sentence when nothing is left after stripping |
| Statement.ComprovanteCases | app.py:619-623 | the generic sentence appears exactly when the contact is only whitespace; otherwise the line names the stripped contact |
| Statement.FileName | app.py:845 | `Boleto_`, the nickname with spaces replaced by `_`, `_`, the month token, `.pdf` |
| Statement.FileNameShape | app.py:845 | the name is `Boleto_`, the nickname with each space made `_`, `_`, the month, `.pdf` |
| Statement.FileNameSpaces | app.py:845 | the name has no space exactly when the month token has none |
| Statement.FileNameDistinguishesMonths | app.py:845 | for one property, two months with the same file name are the same month |
| Statement.Render | app.py:530-626 | the texts `generate_pdf_bytes` puts in the document: title, stripped address and parties, reference month, table, due-day line, payment lines and proof-of-payment line |
| Statement.TableRows | app.py:575-586 | the table is the header, the six charges in order, subtotal, discount, total |
| Statement.RenderAmounts | app.py:575-586 | every amount in the statement's table reads back as the amount it stands for; each item row carries that item's note |
| Statement.RenderReference | app.py:545-601 | the reference line and the due-day line show the month as `MM/YYYY` |
| Statement.History | app.py:859-876 | the history row of one month: the displayed month, the seven amounts in `brl` and the total in `brl` |
| Statement.HistoryAgreesWithStatement | app.py:859-876 | for a month, the history row shows the same seven amounts and the same total as the statement |
| Prefill.MesFromInput | app.py:772 | the month token selected by what is typed in the month field: `display_to_mes` of the stripped text |
| Prefill.Base | app.py:777 | the form's starting entry: the month's own entry if there is one, else the latest one |
| Prefill.MesFromUntouchedInput | app.py:765-772 | leaving the month field as displayed selects the month it was displayed from |
| Prefill.MesFromInputIgnoresSpaces | app.py:772 | whitespace around the month field does not change the month selected |
| Prefill.PrefillChoice | app.py:777-791 | the form starts from the month's own entry if there is one, else from the latest entry; with neither, every amount is 0 and every note empty |
| Prefill.SaveUntouchedForm | app.py:819-832 | saving an untouched form writes the starting entry's amounts and notes under the selected month; with no starting entry it writes zeros and empty notes |
| Store.AppendProperty | app.py:287-296 | appending a property with the counter's id and giving it a configuration keeps the table's invariant |
| Store.Renamed | app.py:300-307 | the length and every row's id stay the same; the new row is in the table whenever its id was; every other property's row is kept; an unknown id leaves the table unchanged |
| Store.RenamedValid | app.py:300-307 | renaming keeps the ids and the invariant; with an unknown id it changes nothing |
| Store.Database.constructor | app.py:112-173 | a database whose three tables have just been created: no property, the counter at 1, no configuration, no ledger row |
| Store.Database.ListApartamentos | app.py:279-284 | all properties, by strictly increasing id, each with a configuration |
| Store.Database.CreateApartamento | app.py:287-297 | the new id is fresh, the row has the stripped fields, its configuration has due day 5; if a configuration already sits under that id, it fails and nothing changes |
| Store.Database.UpdateApartamento | app.py:300-307 | the row with the id gets the stripped fields, the ids stay the same, and a missing id changes nothing |
| Store.Database.LoadConfig | app.py:310-324 | returns the stored configuration, or creates and returns the default one; afterwards one is always stored |
| Store.Database.SaveConfig | app.py:335-370 | overwrites every column of an existing configuration, storing the due day as `int(x or 5)`; with no row it does nothing |
| Store.Database.GetLancamento | app.py:373-401 | the entry stored under exactly that property and month, if any, and its month is that month |
| Store.Database.GetLatestLancamento | app.py:404-435 | `None` exactly when the property has no entries; otherwise the entry of its greatest month |
| Store.Database.UpsertLancamento | app.py:438-498 | the table becomes `Ledger.Upserted` with a fresh time; the entry then reads back as written; every other key reads as before |
| Store.Database.MesesDesc | app.py:501-510 | the property's months, each once, strictly descending |
| Store.Database.ListLancamentos | app.py:501-524 | one summary per stored month of the property and no other, strictly descending, the first being the latest |
| Store.Database.MigrateLancamentos | app.py:251-276 | the table becomes `Legacy.Migrated` of the old rows in order, all at one time |
| Store.Database.InitDb | app.py:182-276 | with properties present nothing changes; otherwise the first property is created from the old configuration or the defaults, and the old rows are migrated to it |
| Store.Database.PrefillBase | app.py:774-777 | the month's own entry if stored, else the latest entry, else `None` |
| Store.Database.SaveAndRender | app.py:836-840 | the statement built after saving shows exactly the saved entry with the stored configuration; the ledger becomes `Ledger.Upserted` at a clock one tick later; a missing configuration is created as the default one; the property table and the counter stay |
| Store.Database.RenderStored | app.py:888-891 | the statement of a listed month shows its stored entry; the ledger, the property table, the counter and the clock stay; a missing configuration is created as the default one |

## Left out

- Floating point: amounts are exact cents. Rounding of `f"{v:,.2f}"` and float sums is not modelled.
- Python's `int()` leniency: the month parsers accept only runs of ASCII digits. `int()` also accepts a sign, surrounding whitespace, `_` and non-ASCII digits.
- `brl` of a non-numeric value is `Formatting.BrlOf(None)`. Which Python values `float()` rejects is not modelled.
- `float()` of an old amount that is not a number, which raises in the migration, is not modelled: every old amount is a `nat` or missing, and a missing one becomes 0 through `or 0.0`.
- The legacy ledger migration, as written, never completes on an old database whose old ledger table holds at least one row. With no old rows, `for r in rows` (app.py:251) runs no insert and the commit at app.py:276 is reached. `Store.Database.InitDb` and `Legacy.Migrated` model the loop over the rows it is given, not that failure. The old ledger table is also called `lancamentos` and is keyed by `mes`, so `CREATE TABLE IF NOT EXISTS lancamentos` (app.py:142) leaves it in place. The migration's `INSERT OR IGNORE` (app.py:258-263) then names columns that table lacks, such as `apartamento_id`, and SQLite rejects the statement when the first row is inserted; `OR IGNORE` does not cover that. The error comes after the new property and its configuration were committed (app.py:238), so every later start skips the migration, since a property exists. On a new database the loop reads the new, empty table and inserts nothing.
- `upsert_lancamento` with a non-numeric amount raises in `float()`. The payload's amounts are `nat`, so this case does not arise.
- Negative amounts: the form's widgets have `min_value=0.0`, so amounts are `nat`.
- The Streamlit UI, the session state and the passcode gate (app.py:16-51, 632-898). The parts of the UI that compute values are modelled: the month field's parse (`Prefill.MesFromInput`), the pre-fill choice, the download file name, the history table's row (`Statement.History`) and the two statement buttons (`Store.Database.SaveAndRender`, `Store.Database.RenderStored`). The UI's own checks before `create_apartamento` (app.py:669) are left out with the rest of the UI.
- The reportlab layout and the PDF bytes (app.py:547-626). The model keeps only the texts and table values put into the document. The whitespace inside the payment paragraph's triple-quoted string is not modelled: its lines are a list.
- SQLite plumbing: connections, SQL text, the `sqlite_master` and PRAGMA lookups (app.py:89-95, 243-244).
  - The old and new ledger tables share the name `lancamentos`, so the model does not decide whether old data exists; `InitDb` is given the old configuration and rows.
  - A NULL month in an old row is skipped, as the NOT NULL constraint makes `INSERT OR IGNORE` drop it.
- `datetime('now')`: replaced by a counter. Only the ledger writes move it forward, once per call; the other methods leave it unchanged.
- Legacy.MigratedApartamento: no lemma states that stripping the built-in default address leaves it unchanged.
