# ERP main menu and IVA module — a Dafny model

This project models two console programs of a FoxPro-to-Python ERP migration:

- **fer000.py**, the top-level menu:
  - the session object;
  - the fixed table of eighteen menu entries;
  - the table of four restricted modules, which need hierarchy level 3;
  - the access check that writes an audit record when it refuses;
  - the dispatcher `ejecutar_opcion`;
  - the `main` loop, which reads option lines until the exit code 0.
- **fer110.py**, the IVA (value-added tax) ledger module:
  - the month names;
  - the guarded month/year prompt `pide`;
  - the sales/purchases selector and the operation selector;
  - the module's own loop, which runs the placeholder sub-programs fer111 (ledger), fer112 (period totals) and fer113 (progression chart).

Console input is a sequence of lines, consumed left to right. `input()` reads the next line; at the end of the sequence it raises `EOFError`. Each "press Enter" pause consumes one line.

The placeholder modules (`stub_modulo`, fer111..fer113) and the audit records are kept as traces. The top-level menu is a `MenuSystem` class whose methods update a cursor, an audit trace and a trace of the modules run. `ExecuteOption`, `Pass` and `Run` are proved against the pure specification functions `Dispatch` and `MenuSpec`; the smaller methods (`Pause`, `RecordAudit`, `RunStub`, `AccessAuthorized`) state their effect on the fields directly. The IVA module works on values (`PideSpec`, `PlayRound`, `IvaSpec`), and its loops (`Pide`, `RunIva`) are methods proved equal to them.

The files are:

- `parsing.dfy`: how a console line is read.
- `iva.dfy`: fer110.py.
- `menu.dfy`: fer000.py.

### Reading a line

The two programs read lines in two ways:

- The month/year prompt `pide` calls `str.strip()` and then `int()` (fer110.py:75 and fer110.py:80).
- Both menus call `int()` on the bare line (fer110.py:126, fer110.py:151 and fer000.py:154).

Either way, an optional sign and ASCII digits are accepted between whitespace, but the whitespace differs. `int()` skips only space and the characters 0x09 to 0x0D. `str.strip()` also removes the separators 0x1C to 0x1F. So a line made of 0x1C and "1" reads as 1 at the prompt, and is refused by a menu.

The model therefore takes the whitespace set (`Spacing`) as a parameter, and defines each reading twice:

- as a reference, `Trim` followed by `Classify`;
- as a one-pass scanner, `Scan`, which the programs use: `Read` for the prompt and `ParseInt` for the menus.

`ScanIsTrimThenConvert` proves the two equal on every line, for either set.

## Model

| member | source | states |
|---|---|---|
| Parsing.TrimEmptyIffBlank | fer110.py:75-76 | a trimmed line (for `line.strip()`, the prompt's text) is empty exactly when every character of the line is whitespace of that set |
| Parsing.ScanIsTrimThenConvert | fer110.py:75-80 | for either whitespace set, the one-pass scan of a line equals trimming that whitespace and then converting: Blank for an empty text, Number(v) for a decimal text with an optional sign, NotNumber otherwise |
| Parsing.ReadIsStripThenInt | fer110.py:75-80 | the prompt's reading of a line equals `strip()` followed by `int()`, without the digit limit of newer Python versions |
| Parsing.ParseIntIsInt | fer110.py:125-128 | bare `int(line)`, with no limit on the number of digits, succeeds exactly when the line, trimmed of space and 0x09 to 0x0D only, is an optionally signed run of ASCII digits, and then gives its decimal value; a separator 0x1C to 0x1F makes it fail |
| Parsing.BlankIffAllSpace | fer110.py:75-78 | the prompt's cancel test holds exactly when the line is all `str.strip()` whitespace |
| Parsing.BareIntAgreesWithStrip | fer110.py:125-128 | every number bare `int(line)` accepts is read the same by `strip()` followed by `int()` |
| Parsing.SeparatorOnlyStripped | fer110.py:125-128 | the converse fails: 0x1C followed by "1" reads as 1 after `strip()`, and bare `int()` refuses it |
| Parsing.ScanShowInt | fer110.py:80 | the decimal text of any integer, with surrounding whitespace of either set, is scanned back as that integer (round trip) |
| Parsing.ParseShowInt | fer000.py:154 | bare `int()` reads the decimal text of any integer back, between spaces, tabs or line ends |
| Parsing.ReadsAs | fer110.py:80 | the bare decimal text of any integer reads back as that integer at the prompt and in the menus |
| Iva.MonthName | fer110.py:26-29 | month m in 1..12 has a non-empty name, taken from MESES at index m |
| Iva.MonthNamesShape | fer110.py:26-29 | MESES has thirteen entries, a blank filler at 0, and twelve distinct non-empty names |
| Iva.NextSettlingShape | fer110.py:74-87 | the question loop skips only lines that neither cancel nor give a value in range, and stops on the first one that does unless the input runs out |
| Iva.PideSpec | fer110.py:61-106 | `pide` reads only lines that exist; running out of input leaves the cursor at the end; a pair it returns has its month in 1..12 and its year in 0..9999 |
| Iva.PideSpecLastLine | fer110.py:90-106 | the last line `pide` reads decides it: an empty line means cancel, and an accepted year line completes the pair |
| Iva.NextSettlingIs | fer110.py:74-87 | the first line that settles a loop is the one the loop stops on |
| Iva.PideCancelledAtMonth | fer110.py:74-78 | after any number of rejected month lines, an empty line cancels at once, and no year is asked |
| Iva.PideCancelledAtYear | fer110.py:90-94 | an empty year line after an accepted month cancels the whole prompt, with no partial result |
| Iva.PideChosenFrom | fer110.py:74-106 | rejected month lines, an accepted month, rejected year lines and an accepted year return exactly that pair |
| Iva.PideChosenShape | fer110.py:74-106 | conversely, every pair returned is the first accepted month line followed by the first accepted year line after it |
| Iva.PideMonthHasName | fer110.py:81-83 | every month `pide` returns indexes a non-empty name in MESES |
| Iva.Pide | fer110.py:61-106 | the two input loops of `pide` compute exactly PideSpec: the outcome and the first unread line |
| Iva.PideExampleCancel | fer110.py:76-78 | an empty first line cancels after reading one line |
| Iva.PideExampleMonthRetry | fer110.py:81-85 | "13" is rejected, then "7" and "2024" give (7, 2024) |
| Iva.PideExampleYearRetry | fer110.py:97-101 | "10000" is rejected as a year, and "2024" is then accepted |
| Iva.SelectSide | fer110.py:125-133 | `menu_tipo_iva` gives sales (origin "V") exactly on the integer 1 and purchases (origin "C") exactly on 2; every other case is None, including end of input and a bare `int()` failure |
| Iva.SelectSideRefusesSeparator | fer110.py:125-128 | a "1" after the separator 0x1C selects no side, because bare `int()` refuses it |
| Iva.SelectSideByNumber | fer110.py:121-132 | typing the number shown for a side, with any surrounding whitespace, selects that side |
| Iva.SelectOperation | fer110.py:150-154 | `menu_opciones_iva` gives an operation exactly when the line is an integer in 1..3, and then that integer |
| Iva.PlayRound | fer110.py:168-193 | one pass of the loop after a side is chosen reads only existing lines; it keeps the side, and its operation is the selector's result |
| Iva.PlayRoundObeysLaw | fer110.py:168-193 | every pass obeys the rules of the loop. Going back asks and runs nothing. Options 1 and 2, and only they, consult `pide`. fer111/fer112 run only on a returned pair, and fer113 exactly on option 3. The input runs out only in `pide` or at a sub-program's pause |
| Iva.PlayRoundReads | fer110.py:168-193 | a pass reads the operation line, then the lines `pide` reads, then one line for the sub-program's pause; it hits end of input exactly in `pide` or at that pause |
| Iva.IvaSpec | fer110.py:157-193 | the module's loop reads only existing lines; it records a pass exactly when a side is selected; an abort leaves the cursor at the end of input |
| Iva.IvaSpecWellRun | fer110.py:157-193 | every recorded pass obeys the loop's rules; only the last pass can hit end of input, and the run is aborted exactly when it does |
| Iva.SalesChartScenario | fer110.py:190-193 | side 1, then operation 3, runs the sales progression chart at once, without asking for month and year |
| Iva.PlayRoundOnce | fer110.py:168-193 | the loop body computes exactly PlayRound |
| Iva.RunIva | fer110.py:157-193 | the module's `main` loop computes exactly IvaSpec |
| Menu.Session.constructor | fer000.py:27-34 | a new session has an empty user, level 0, empty store and spool, and detail off |
| Menu.Session.DemoLogin | fer000.py:146-149 | the demonstration sign-in sets user DEMO, level 3 and the store name, and leaves the rest unchanged |
| Menu.FindEntrySpec | fer000.py:122 | the table lookup finds an entry exactly when some entry carries the code, and then the first such entry |
| Menu.FindEntryFirst | fer000.py:122 | the first entry that carries the code is the one returned |
| Menu.CodesByPosition | fer000.py:77-96 | entry i of MENU_OPCIONES has code i + 1, and the last entry has code 0 |
| Menu.ActionsMatchRestricted | fer000.py:77-103 | the entries without an action, besides the exit entry, are exactly the codes of MODULOS_RESTRINGIDOS |
| Menu.ErpMenuWellFormed | fer000.py:77-103 | the two tables have unique codes and one exit entry, the last; every restricted code is a non-exit entry of the table |
| Menu.LookupInTable | fer000.py:77-122 | each code 0..17 finds the entry at its position |
| Menu.LookupOutsideTable | fer000.py:122-125 | no other code finds an entry |
| Menu.Dispatch | fer000.py:117-141 | `ejecutar_opcion` returns false exactly on code 0. It writes at most one audit record or runs at most one module; it pauses exactly when it does one of those; an audit record is written only for a restricted code below level 3 |
| Menu.DispatchExit | fer000.py:118-119 | code 0 leaves the menu, with no audit and no module |
| Menu.DispatchUnknown | fer000.py:122-125 | a code not in the table is ignored |
| Menu.DispatchDenied | fer000.py:128-131 | a restricted code below level 3 runs nothing and writes one audit record, naming the module's audit text |
| Menu.DispatchGranted | fer000.py:128-134 | a restricted code at level 3 or above runs exactly its program, with no audit record |
| Menu.DispatchFree | fer000.py:136-141 | an unrestricted code in the table runs exactly its entry's module, whatever the level |
| Menu.DispatchAuditsOnlyDenials | fer000.py:128-131 | every audit record a dispatch writes names the session's user and a restricted module, below the required level |
| Menu.DispatchBelowLevelRunsOnlyFree | fer000.py:128-141 | below level 3, a dispatch runs only the action of an unrestricted entry |
| Menu.DispatchExampleGranted | fer000.py:128-134 | a supervisor choosing 14 runs the stub "fer110 - IVA" |
| Menu.DispatchExampleDenied | fer000.py:128-131 | a level-1 user choosing 3 gets one audit record for the salesmen module |
| Menu.MenuSpec | fer000.py:151-160 | the menu loop reads only existing lines; it ends either on the exit code or at the end of input; when it exits, the last line it read holds 0 |
| Menu.MenuExitsOnlyOnZero | fer000.py:158-160 | the loop exits only if some line holds 0 |
| Menu.MenuExitsOnZeroLine | fer000.py:154-160 | a line holding 0 at the prompt ends the loop at once |
| Menu.MenuSkipsNonInteger | fer000.py:153-156 | a line that is not an integer re-shows the menu and changes nothing else |
| Menu.MenuSkipsSeparatedZero | fer000.py:153-156 | a "0" after the separator 0x1C does not exit: bare `int()` refuses it and the menu is shown again |
| Menu.MenuPauseSkipsLine | fer000.py:44-46 | the line after a pausing dispatch is consumed by the pause, and never read as an option |
| Menu.SupervisorNeverAudited | fer000.py:144-160 | a session at level 3 or above writes no audit record |
| Menu.AuditRecordsAreDenials | fer000.py:49-70 | over a whole session, every audit record names the user and a restricted module, and is written below the required level |
| Menu.BelowLevelRunsOnlyFree | fer000.py:128-141 | over a whole session below level 3, no restricted program ever runs |
| Menu.AsWrittenSpinsAtEndOfInput | fer000.py:151-156 | the loop as written never finishes once the input is exhausted |
| Menu.AsWrittenNeverEndsAtEndOfInput | fer000.py:151-156 | wherever the corrected loop stops at the end of input, the loop as written never finishes |
| Menu.AsWrittenNeverEndsOnEmptyInput | fer000.py:151-156 | on empty input the corrected loop ends at once, and the loop as written never |
| Menu.CorrectedAgreesWhereAsWrittenEnds | fer000.py:151-160 | where the loop as written finishes, the corrected loop ends the same way, with the same traces |
| Menu.AsWrittenEndsWhereCorrectedStops | fer000.py:151-160 | conversely, where the corrected loop stops before the input runs out, the loop as written, given more passes than lines remain, finishes the same way with the same traces |
| Menu.MenuSystem.constructor | fer000.py:144-151 | the menu starts with the cursor at the first line and empty traces |
| Menu.MenuSystem.Pause | fer000.py:46 | a pause consumes one line, and reports end of input when there is none |
| Menu.MenuSystem.RecordAudit | fer000.py:49-55 | `registrar_auditoria` appends exactly one record for the session's user |
| Menu.MenuSystem.RunStub | fer000.py:44-46 | `stub_modulo` appends the module's name to the trace, then pauses |
| Menu.MenuSystem.AccessAuthorized | fer000.py:58-70 | access is granted exactly when the level reaches the minimum; when refused, exactly one audit record is written and one line is consumed |
| Menu.MenuSystem.ExecuteOption | fer000.py:117-141 | the dispatcher changes the traces and the cursor exactly as Dispatch says, and leaves the session alone |
| Menu.MenuSystem.Pass | fer000.py:152-160 | one pass of the loop is the first step of MenuSpec from the cursor |
| Menu.MenuSystem.Run | fer000.py:151-160 | the loop's outcome, traces and final cursor are exactly MenuSpec from the starting cursor. This is the corrected loop of "## Findings", which stops at the end of input |
| Menu.ErpMain | fer000.py:144-160 | `main` signs in as DEMO at level 3, then behaves as MenuSpec and writes no audit record. Like Run, it follows the corrected loop of "## Findings" |

## Left out

- Console output is not modelled: the menu rendering (`mostrar_menu`), box drawing, messages and titles.
- Parsing.ScanIsTrimThenConvert: Python's `int()` also accepts underscores between digits, non-ASCII Unicode digits and Unicode whitespace (such as 0x85 and 0xA0), and `str.strip()` removes Unicode whitespace too. The model reads only ASCII digits and ASCII whitespace.
- Parsing.ParseIntIsInt: Python (3.11 and later, and the matching security releases of earlier versions) refuses a decimal text of more than 4300 digits, leading zeros included (`sys.int_max_str_digits`). The model has no digit limit, so a menu line of 4301 zeros exits and a month line of 4300 zeros followed by 7 is accepted as July, where Python raises ValueError. The same holds for `Read`, `ScanIsTrimThenConvert` and `ReadIsStripThenInt`.
- The timestamp of an audit record (`datetime.datetime.now()`) is not modelled; a record holds only the user and the detail text.
- The audit record is a trace entry. The database insert it stands for is marked TODO in the source and is not part of this model.
- The placeholder modules (`stub_modulo`, fer111, fer112, fer113) are modelled by their name, or their side of the ledger, plus the one "press Enter" line they read. In fer000, code 14 runs only the stub named "fer110 - IVA", as the source does, so the two programs are independent here too.
- Menu.Session.DemoLogin: the sign-in is fixed, as in the source; no real login or database is modelled.
- An uncaught EOFError (at a pause, or inside `pide`) is modelled as an outcome that ends the run: `Interrupted` in the menu, and `aborted` in the IVA loop. No exception propagation is modelled.
- Menu.MenuAsWritten: it is bounded by a fuel count, since the loop as written does not always terminate; None stands for "still running".

## Findings

| source | as written | input that shows it | evidently intended | confidence | as-written member | corrected member |
|---|---|---|---|---|---|---|
| fer000.py:151-156 | `EOFError` from `int(input(...))` is caught together with `ValueError` and answered with `continue`, so once the input is exhausted the loop shows the menu forever | an empty (closed) console input | the loop should stop at the end of input | not executed | Menu.MenuAsWritten (Menu.AsWrittenNeverEndsOnEmptyInput, Menu.AsWrittenNeverEndsAtEndOfInput) | Menu.MenuSpec (Menu.CorrectedAgreesWhereAsWrittenEnds, Menu.AsWrittenEndsWhereCorrectedStops) |
