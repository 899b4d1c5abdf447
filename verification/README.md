# Expense wizard of bot-gastos-telegram, in Dafny

The bot records personal expenses from Telegram into a Google spreadsheet.
It exists in two near-identical copies, `main.py` and `api/index.py`. Both
hold the same per-user wizard:

- `/gasto` (`nuevo_gasto`) sends the category menu from `CATEGORIAS`, laid
  out two buttons per row. Each button carries `categoria_<key>`.
- A button press (`seleccionar_categoria`) stores the key in
  `user_data['categoria']`.
- The next text message (`procesar_mensaje_gasto`) is read as
  `monto descripción`. It becomes one six-cell row appended by
  `guardar_gasto_en_sheets`, and the stored category is cleared.

The model is a pure step function per user, `Wizard.Step`, with one
parameter for the copy being modelled (`RootScript` is `main.py`,
`ApiIndex` is `api/index.py`). The two copies differ in two places:

- `api/index.py` strips the message before splitting it.
- `api/index.py` splits the callback data with `split('_', 1)`, where
  `main.py` uses `split('_')`.

The session is `Option<string>`. The spreadsheet is an oracle value,
`Ledger.Sheet`: either no sheet, or a sheet whose append succeeds or
raises. The clock is the pair of strings `strftime` produces. An exception
a handler does not catch becomes the reply `Raised(KeyError(key))`, and
the session stays as the handler left it at that point. The `Bot` module
keeps one session per user id and runs each update against its sender's
session only.

Modules, one per file:

- `Wrappers`: `Option`.
- `PyStrings`: `find`, `split`, `replace`, `strip` and `isspace`.
- `PyCase`: `capitalize`.
- `Numerals`: `str(int)` and the decimal subset of `float(str)`.
- `Catalog`: `CATEGORIAS`.
- `Keyboard`: the menu layout.
- `Ledger`: the row and the append.
- `Wizard`: the handlers and the step function.
- `Bot`: per-user dispatch.

Behaviour of the code that the model reproduces on purpose:

- A failed append still clears the session (`main.py:153`,
  `api/index.py:150`).
- The text is split at the first single space (`split(' ', 1)`), not at
  the first run of whitespace.
- The category cell of the row is `key.capitalize()` (`main.py:63`,
  `api/index.py:69`), not the emoji label.
- A key that is not in the catalog is stored in the session before its
  lookup raises `KeyError` (`main.py:119-121`, `api/index.py:117-119`).

## Model

| member | source | states |
|---|---|---|
| Catalog.LabelOf | main.py:121 | `CATEGORIAS[key]` succeeds exactly for the seven catalog keys, and then returns the label listed beside that key; otherwise it is the `KeyError` case |
| Catalog.Lookup | api/index.py:119 | dictionary lookup in an association list: absent exactly when no entry has the key, otherwise a label paired with the key |
| Catalog.CatalogShape | main.py:74-82 | the catalog has seven distinct keys, no key contains `_`, and every label is non-empty |
| Catalog.LabelOfEntry | api/index.py:79-87 | looking up the key of any entry returns that entry's own label, because the keys are distinct |
| Keyboard.RowsShape | main.py:102-110 | reading the rows in order gives back exactly the buttons; there are ceil(n/2) rows, each of one or two buttons, and only the last may hold one |
| Keyboard.RowsAppend | main.py:106-108 | pushing a row of one or two buttons after an even number of buttons adds exactly that row to the layout |
| Keyboard.LayOutRows | main.py:102-110 | the `row`/`keyboard` loop of `nuevo_gasto`, with the final short row pushed after the loop, builds the two-per-row layout |
| Keyboard.PushRow | api/index.py:104-108 | each push of the pending row keeps the keyboard equal to the layout of the buttons seen so far |
| Keyboard.CategoryMenuShape | api/index.py:100-108 | the seven-entry menu has four rows: three of two buttons, then one single button; read row by row, button i shows entry i's label and carries `categoria_` + key i |
| PyStrings.IndexOf | main.py:134 | `find`: absent exactly when the character does not occur; otherwise the position of an occurrence with none before it |
| PyStrings.SplitOnce | main.py:134 | `split(' ', 1)`: without the separator the whole string is the only piece; otherwise two pieces that rebuild the string around the first separator, the first piece free of it |
| PyStrings.SplitAll | main.py:118 | `split('_')`: at least one piece, no piece contains the separator, and joining the pieces with it gives back the string |
| PyStrings.SplitAllJoin | main.py:118 | `split` inverts `join` when no piece contains the separator |
| PyStrings.SecondPiece | main.py:118 | `split('_')[1]` is the run after the first `_`, up to the next `_` or the end |
| PyStrings.ReplaceChar | main.py:135 | `replace(',', '.')` keeps the length and changes exactly the positions holding `,` |
| PyStrings.ReplaceCharAbsent | main.py:135 | replacing a character that does not occur leaves the string unchanged |
| PyStrings.ReplaceCharIdempotent | api/index.py:133 | after the replacement no `,` remains, so replacing again changes nothing |
| PyStrings.LeadingSpaces | api/index.py:131 | the leading run `strip` removes: at most the length, followed by a non-space character unless it covers everything |
| PyStrings.LeadingRunIsSpace | api/index.py:131 | every character of the leading run is whitespace in Python's `isspace` sense |
| PyStrings.TrailingSpaces | api/index.py:131 | the trailing run `strip` removes: at most the length, preceded by a non-space character unless it covers everything |
| PyStrings.TrailingRunIsSpace | api/index.py:131 | every character of the trailing run is whitespace in Python's `isspace` sense |
| PyStrings.RStrip | api/index.py:131 | the result is a prefix of the input that does not end in whitespace |
| PyStrings.RStripRemovesOnlySpace | api/index.py:131 | what `rstrip` drops after the kept prefix is all whitespace |
| PyStrings.Strip | api/index.py:131 | the result is no longer than the input, and neither end of it is whitespace |
| PyStrings.StripRemovesOnlySpace | api/index.py:131 | the result is the slice of the input after its leading whitespace run, and everything cut off on either side is whitespace |
| PyStrings.StripTrimmed | api/index.py:131 | a string with no whitespace at either end strips to itself |
| PyStrings.StripIdempotent | api/index.py:131 | stripping twice equals stripping once |
| PyStrings.LeadingSpacesPadded | api/index.py:131 | whitespace put in front adds exactly its own length to the leading run |
| PyStrings.TrailingSpacesPadded | api/index.py:131 | whitespace put behind adds exactly its own length to the trailing run |
| PyStrings.StripOfSpaces | api/index.py:131 | a string made only of whitespace strips to the empty string |
| PyStrings.StripIgnoresPadding | api/index.py:131 | whitespace added on either side of any string never changes what `strip` returns |
| PyCase.Capitalize | main.py:63 | `capitalize()`: same length, first character upper-cased, every later character lower-cased |
| PyCase.CapitalizeKeepsLetters | api/index.py:69 | `capitalize` changes only letter case, and applying it twice equals applying it once |
| Numerals.NatToDecimal | main.py:59 | `str(n)` is a non-empty run of decimal digits without a point, starting with `0` exactly for zero, so never with a leading zero |
| Numerals.IntToDecimal | api/index.py:65 | `str(i)` starts with `-` exactly for negative `i`, followed by `str` of the magnitude |
| Numerals.NatToDecimalCanonical | main.py:59 | every digit run without a leading zero is `str` of its own value, so `str` produces exactly the canonical numerals |
| Numerals.NatToDecimalValue | main.py:59 | the digits of `str(n)` read back as `n` |
| Numerals.IntToDecimalRoundTrip | api/index.py:65 | `float(str(user_id)) == user_id` for every integer, negative ones included |
| Numerals.ParseFloat | main.py:135 | the sign of the parsed value follows the sign character: non-positive after `-`, non-negative otherwise |
| Numerals.ParseFloatAccepts | api/index.py:133 | the float parse succeeds exactly on an optional `+` or `-` followed by an unsigned decimal numeral |
| Numerals.ParseFloatSigns | main.py:135 | a `+` in front of an unsigned numeral keeps its value and a `-` negates it |
| Numerals.ParseUnsignedAccepts | main.py:135 | the unsigned parse succeeds exactly on digits with at most one point and at least one digit (`7.`, `.25`, `35.50`; not `.`, not the empty string) |
| Ledger.BuildRow | main.py:58-65 | six cells in order: `str(user_id)`, which also parses back to the id, the timestamp, the date, the amount as a number, a category text equal to the key up to case and in capitalised form, and the description |
| Ledger.Save | main.py:53-72 | a row is appended, and the result is `True`, exactly when a sheet is available and its append succeeds; the appended row is the one built from the call's arguments |
| Ledger.CategoryCellIsCapitalisedKey | api/index.py:69 | a key starting with a lower-case letter is stored with that letter upper-cased, so never verbatim |
| Ledger.CategoryCellIsNotLabel | main.py:63 | for every catalog entry the category cell holds the capitalised key and never the emoji label the user was shown |
| Wizard.CallbackKey | main.py:118 | `split('_')[1]` (`main.py`) or `split('_', 1)[1]` (`api/index.py`) has a value exactly when the data contains `_`; otherwise it is the `IndexError` case |
| Wizard.ApiCallbackKeyMeaning | api/index.py:116 | in `api/index.py` the key is everything after the first `_` |
| Wizard.RootCallbackKeyMeaning | main.py:118 | in `main.py` the key is the run after the first `_`, up to the next `_` or the end |
| Wizard.CallbackKeyOfButton | api/index.py:116 | both copies read back the key of `categoria_` + key; `api/index.py` does so for any key, `main.py` for keys without `_` |
| Wizard.RootScriptTruncatesKey | main.py:118 | in `main.py` a key with an underscore comes back cut at its first underscore |
| Wizard.SelectCategory | main.py:115-125 | data without `categoria_` is not handled and changes nothing; otherwise the parsed key is stored before the lookup, and the reply is the prompt with the key's label, or `KeyError` with the unknown key already stored; no ledger call |
| Wizard.MessageText | api/index.py:131 | `main.py` splits the text as received; `api/index.py` splits a no-longer text with no whitespace at either end |
| Wizard.ApiParsesStripped | api/index.py:131-134 | `api/index.py` parses a message exactly as `main.py` parses the stripped message |
| Wizard.CopiesAgreeOnTrimmed | api/index.py:131-134 | on a message with no whitespace at either end the two copies parse alike |
| Wizard.ParseExpense | main.py:133-136 | with a space, the amount word, one space and the description rebuild the split text, and the amount is the word's; without a space, the parse succeeds exactly when the whole text is a number, and the description is `Sin descripción` |
| Wizard.ParseComposedMessage | api/index.py:132-134 | a text made of a space-free word, one space and a description parses to the word's amount and exactly that description, or fails exactly when the word is not a number |
| Wizard.ApiIgnoresPadding | api/index.py:131-134 | in `api/index.py` whitespace around a message never changes its parse |
| Wizard.RootScriptTrailingSpace | main.py:133-136 | in `main.py`, `"120 "` parses to 120 with the empty description |
| Wizard.ApiTrailingSpace | api/index.py:131-134 | in `api/index.py`, `"120 "` parses to 120 with `Sin descripción` |
| Wizard.AmountOf | main.py:135 | a word without `,` is parsed as it stands; commas only matter through their replacement |
| Wizard.AmountOfAccepts | api/index.py:133 | an amount word is accepted exactly when, with each `,` read as `.`, it is a signed or unsigned decimal numeral |
| Wizard.CommaAmountExample | main.py:135 | `"35,50"` and `"35.50"` are the same amount, 35.5 |
| Wizard.SeparatorSpellingIrrelevant | api/index.py:133 | two amount words that differ only in writing `,` or `.` have the same amount |
| Wizard.EmptyAmountToken | main.py:133-135 | an empty message, or in `main.py` one starting with a space, has no amount and so gets the format error |
| Wizard.ProcessText | main.py:127-160 | no category: the `/gasto` hint, no ledger call, session unchanged. Bad amount: the format error, no ledger call, category kept. Otherwise exactly one ledger call with the stored key and the parsed values. A failed append clears the session and replies with the failure. A successful append with a catalog key clears it and replies with that key's label. With an unknown key it raises `KeyError` and skips the clear |
| Wizard.Step | main.py:169-172 | a ledger call happens only for a text message with a category selected, and it carries that category and the sender's id; commands never touch the session; `/gasto` sends the category menu; the session changes only by a button press that sets it or a ledger call that clears it |
| Wizard.MenuButtonIsSafe | api/index.py:113-124 | pressing any menu button, in either copy, stores that button's key and prompts with its label |
| Wizard.MenuStepIsSafe | api/index.py:126-157 | while button data comes from the menu, a step keeps the session empty or a catalog key, never lets an exception escape, and clears the session after every ledger call |
| Wizard.MenuRunIsSafe | main.py:115-160 | over any sequence of updates whose button presses come from the menu, no handler ever raises and the session is always empty or a catalog key |
| Bot.WithSession | main.py:153 | storing or clearing one user's category sets exactly that user's session and leaves every other user's as it was |
| Bot.Dispatch | main.py:166-172 | an update runs the wizard on its sender's session only, stores the new session for that sender, and leaves every other user's session untouched |
| Bot.ClearIsIdempotent | api/index.py:150 | clearing a user's data twice equals clearing it once, and afterwards that user has no category |
| Bot.DistinctUsersCommute | api/index.py:127 | updates from two different users give the same responses and the same final store in either order |

## Left out

- Telegram wiring: the `Application`, handler registration and `process_update` (`main.py:166-172`, `api/index.py:160-164`). The `Event` type stands for the routed update. Text events are assumed to be non-command text, which is what `filters.TEXT & ~filters.COMMAND` passes.
- The webhook entry points (`main.py:175-182`, `api/index.py:167-196`) and their 204/400/500 status codes: HTTP I/O.
- `conectar_a_sheets`: environment variables, JSON credentials, OAuth and gspread are foreign calls. They are replaced by the `Ledger.Sheet` oracle.
- `datetime.now()` and `strftime`: the clock is a pair of opaque strings.
- `query.answer()`, `edit_message_text` versus `reply_text`, the exact reply texts, Markdown and logging. Only the kind of reply and the values it shows are modelled. The greeting's `first_name` (with `"allí"` as the fallback in `api/index.py`) is not modelled.
- What python-telegram-bot does with an exception that escapes a handler. The model stops at `Raised`.
- The in-memory `user_data` being lost between serverless invocations, and concurrent updates: the model is sequential with a persistent store.
- Numerals.ParseFloat: recognises only an optional sign followed by a plain decimal numeral. Python's `float` also accepts exponents, `inf` and `nan`, `_` between digits, non-ASCII digits and surrounding whitespace such as a tab. The model rejects all of these, so its parse is weaker than the source's.
- Numerals.ParseFloat: amounts are exact reals, not IEEE doubles. Rounding and the `repr` of the amount in the success reply are not modelled.
- PyCase.Capitalize: ASCII letters only. Python also case-maps other Unicode letters, but every catalog key is ASCII.
