# Cuadernillo INFOEX — a verified model of the page logic

Cuadernillo INFOEX is a small web application for the daily records of
wildfire crews ("cuadernillo" is the crew's log book). Its pages are:

- the monthly code grid;
- the daily roll ("parte") of one crew on one day;
- the roster of crew members ("componentes");
- the fire call-outs ("salidas") of a roll;
- an administration listing with a CSV export.

The pages keep their state in the browser's local and session stores and
mirror it to a remote database.

This project models the logic of those pages in Dafny and proves what they
promise:

- **Current selection** (`src/lib/selection.ts`): the selection is stored
  as JSON under one key. The model proves that reading after a write gives
  what was written, that the session key survives later writes, and that
  no other key is touched.
- **Row context** (`src/lib/db.ts`): the projection of a selection onto a
  row's columns. Exactly one of unidad and caseta is set, and the
  projection loses only the difference between an absent property and a
  null one.
- **Daily roll** (`src/pages/Page2.tsx`):
  - The storage key can be split back into year, month, day, type and
    centre.
  - Rows are kept in step with the roster: existing rows survive, new
    members get an empty row, and syncing twice changes nothing.
  - A field edit changes only that field of the matching rows.
  - The remote payload reads back as the rows.
- **Roster** (`src/pages/Page3.tsx`): `crear` reads the first of three keys
  that holds a roster, appends the new member and always writes the
  canonical key.
- **Call-outs** (`src/pages/Page4.tsx`): add, remove and update. Saving
  has three outcomes: no remote store, no roll, or a replacement of the
  rows. Saved rows load back as the call-outs.
- **Administration** (`src/pages/Page6.tsx`):
  - The login accepts any spelling of the user name that reads "admin"
    once the accents of its Latin-1 letters are removed and its case is
    lowered, with any white space around it (`Admin.LoginAnySpelling`).
  - Page ranges are adjacent and never overlap. The page count is at
    least one, and the next button is enabled exactly when the next page
    is non-empty.
  - The CSV export, read back by an RFC 4180 reader, gives the header
    record and one nine-field record per row.
  - Every filter change returns to page 0.
- **Monthly grid** (`src/pages/Page1.tsx`):
  - `new Date(y, m + 1, 0).getDate()` is computed with ECMAScript's
    day-number formula. It is proved equal to the Gregorian month-length
    table.
  - The crew filter keeps, in order, exactly the matching members.
  - Setting a cell changes that cell alone.

Where the source replaces React state through `setX(prev => …)`, the model
has a class with that state as a field. Its methods are proved to produce
exactly what a pure function of the old state gives, and the properties
are proved about those functions. The browser stores are
`Storage.Store`, a class over a `map<string, string>`.

Text handling is in `Text`:

- trim uses the white-space set of ECMAScript;
- `toLowerCase` covers ASCII and Latin-1;
- `includes`, `padStart`, `split` and `join` are modelled.

JSON is a small value type with a serializer and a parser, proved to round
trip (`Json.ParseSerialize`). The parser skips white space between tokens
as `JSON.parse` does, so indented text reads back too (`Json.ParsePadded`).

## Model

| member | source | states |
|---|---|---|
| Selection.GetNullCases | src/lib/selection.ts:16-24 | reading gives null when the key is missing, holds empty text, or does not parse |
| Selection.GetIndented | src/lib/selection.ts:16-24 | a stored selection with white space around it still reads back as that selection |
| Selection.Get | src/lib/selection.ts:16-24 | a selection is read only from non-empty text under the key that parses as an object, and it carries the session key that object holds |
| Selection.Decode | src/lib/selection.ts:20 | a selection is read only from an object, and each of its properties is what the object holds under that name: an absent property as missing, a null one as null |
| Selection.Encode | src/lib/selection.ts:30 | `JSON.stringify` of a selection is an object in which the session key, type and selection read as strings, each other property as its text, as null, or not at all when absent |
| Json.ParsePadded | src/lib/selection.ts:20 | `JSON.parse` of a written value with white space before and after it gives the value back |
| Json.SurrogateRead | src/lib/selection.ts:20 | a character beyond the basic plane written as a surrogate-pair escape reads as that one character |
| Selection.DecodeEncode | src/lib/selection.ts:20 | a selection written as JSON (line 30) decodes back to the same selection, absent and null properties kept apart |
| Selection.SetKeepsSessionKey | src/lib/selection.ts:27-29 | a write keeps the stored session key and uses the fresh key only when no selection is stored |
| Selection.SetThenGet | src/lib/selection.ts:26-32 | reading right after a write gives exactly the payload the write returned |
| Selection.Set | src/lib/selection.ts:26-32 | the payload is the fields stamped with the session key a write uses, and the store gets its text under the key, every other key as it was |
| Selection.GetCurrentSelection | src/lib/selection.ts:16-24 | the selection read from the page's store is the one `Get` gives for its entries |
| Selection.TwoSetsShareSessionKey | src/lib/selection.ts:27-28 | two writes in a row carry the same session key whatever fresh keys are offered |
| Selection.ClearThenGet | src/lib/selection.ts:34-36 | reading after a clear gives null |
| Selection.OnlyKeyTouched | src/lib/selection.ts:30 | writing and clearing leave every other key of the store as it was |
| Selection.SetCurrentSelection | src/lib/selection.ts:26-32 | the new store and the payload are those of the pure write `Set` |
| Selection.ClearCurrentSelection | src/lib/selection.ts:34-36 | the store loses the selection key and nothing else |
| Db.SelectionToContext | src/lib/db.ts:49-61 | copies the session key and type; nullable properties become null when absent; unidad holds the selection iff the type is unidad, caseta iff caseta, never both |
| Db.OrNull | src/lib/db.ts:52-59 | `x ?? null`: a text stays as it is, an absent or null property becomes null |
| Db.ContextRoundTrip | src/lib/db.ts:49-61 | the selection can be recovered from its context, except that absent properties come back as null |
| Db.ContextInjective | src/lib/db.ts:49-61 | two selections have equal contexts iff they agree once absent properties are read as null |
| Componentes.FromToJson | src/pages/Page3.tsx:15-20 | a roster member written as JSON, with an undefined number left out, reads back as itself |
| Componentes.ToJson | src/pages/Page3.tsx:15-20 | the member written as JSON is an object whose id, nombre and apellidos read back as the member's, with a numero property exactly when the member has a number |
| Componentes.FromJson | src/pages/Page3.tsx:15-20 | a member is read only from an object holding id, nombre and apellidos as strings, and its number is present exactly when the object has a numero property |
| Componentes.FromItemsAppend | src/pages/Page3.tsx:29 | pushing a member onto the stored array appends it to the roster read |
| Componentes.ArrayOfIndented | src/pages/Page3.tsx:28 | a stored array with white space around it reads as the same items |
| Componentes.FallbackFirstFilled | src/pages/Page3.tsx:23-26 | the roster text comes from the first of the three keys that holds non-empty text; there is none usable iff no key does |
| Componentes.Fallback | src/pages/Page3.tsx:23-26 | the text read is what one of the three keys holds; when none holds non-empty text it is what the last key gives |
| Componentes.ArrayOf | src/pages/Page3.tsx:28 | missing or empty text reads as the empty array; other text reads iff it parses as an array, and then as that array's items |
| Roster.PuedeCrear | src/pages/Page3.tsx:10 | creation is allowed iff both names hold something besides white space |
| Roster.NewComponente | src/pages/Page3.tsx:15-20 | names are trimmed; the number is left out iff it is blank, and trimmed otherwise |
| Roster.Created | src/pages/Page3.tsx:14-32 | a roster text that does not parse as an array writes nothing; otherwise the canonical key gets the array read plus the new member |
| Roster.CreatedFromIndented | src/pages/Page3.tsx:23-32 | a stored roster with white space around it is read and appended to like any other |
| Roster.ReadFallback | src/pages/Page3.tsx:23-26 | the text read is the one the fallback over the three keys gives |
| Roster.Crear | src/pages/Page3.tsx:14-32 | the store after `crear` is the one `Created` gives; nothing changes when the read fails |
| Roster.CreatedAppends | src/pages/Page3.tsx:28-32 | the written roster is the roster read with the new member at the end |
| Roster.CreatedFromNothing | src/pages/Page3.tsx:28 | with no roster under any key, the written roster holds the new member alone |
| Roster.CreatedOnlyCanonical | src/pages/Page3.tsx:32 | only the canonical key is written; the two older keys keep their text |
| Roster.CreatedTwice | src/pages/Page3.tsx:23-32 | two creations leave both new members at the end, in order |
| Roster.AsWrittenIgnoresCreation | src/pages/Page2.tsx:59-62 | the roll page's roster load gives the same roster before and after a creation |
| Roster.CreatedReadsBack | src/pages/Page3.tsx:23-32 | after a creation, the fallback read finds the roster read before with the new member at the end |
| Roster.RollPageMissesNewComponent | src/pages/Page2.tsx:60 | on a store with no roster, the roll page reads no member after a creation, while the roster page's own reading finds the new member |
| Roster.RollPageSeesNewComponent | src/pages/Page3.tsx:23-26 | read with the roster page's fallback, the roll page sees every stored member followed by the new one |
| Parte.Pad2Value | src/pages/Page2.tsx:67-68 | `padStart(2, "0")` of a month or day below 100 is two digits with that value |
| Parte.StorageKey | src/pages/Page2.tsx:65-70 | every roll key starts with "infoex:parte:" and holds more than that prefix |
| Parte.PartePk | src/pages/Page2.tsx:72 | a key that starts with the prefix loses exactly that prefix; a key shorter than the prefix is kept |
| Parte.CentrePart | src/pages/Page2.tsx:66-69 | the key names the caseta for a caseta header, the unidad otherwise, and "SIN" when there is no header or the chosen centre is null |
| Parte.PrefixThenPk | src/pages/Page2.tsx:72 | the remote key is the storage key without its "infoex:parte:" prefix |
| Parte.DateFields | src/pages/Page2.tsx:65 | the date splits on '-' into the year, then the month and the day as two digits each with their values |
| Parte.DateFree | src/pages/Page2.tsx:65 | the date holds no colon |
| Parte.KeyPieces | src/pages/Page2.tsx:65-72 | for any centre text, the remote key splits on ':' into the date, the type, then the centre's own pieces |
| Parte.KeyFields | src/pages/Page2.tsx:65-70 | the remote key splits on ':' into date, type and centre |
| Parte.KeyDistinguishesDays | src/pages/Page2.tsx:65-70 | two days with the same header have different keys, whatever the centre text holds |
| Parte.RosterFrom | src/pages/Page2.tsx:58-62 | a missing or empty roster text leaves the initial empty roster; so does text that does not parse as an array |
| Parte.LoadRosterAsWritten | src/pages/Page2.tsx:58-62 | with no text under the legacy key "infoex:componentes" the roll page's roster is empty, whatever the other keys hold |
| Parte.FindRow | src/pages/Page2.tsx:137-139 | the row kept for a member is the last of the previous rows with that id, and there is none iff no row has the id |
| Parte.Sync | src/pages/Page2.tsx:131-151 | one row per roster member, in roster order, each the previous row with that id or an empty row |
| Parte.SyncEmpty | src/pages/Page2.tsx:132-134 | an empty roster clears the rows |
| Parte.SyncKeepsRow | src/pages/Page2.tsx:139 | a member's existing row is kept as it was |
| Parte.SyncNewRow | src/pages/Page2.tsx:140-147 | a member without a row gets the empty row |
| Parte.SyncIdempotent | src/pages/Page2.tsx:131-151 | syncing again with the same roster changes nothing, repeated ids included |
| Parte.ApplyOnlyThat | src/pages/Page2.tsx:220 | an edit sets its field and leaves every other field as it was |
| Parte.ReadDetermines | src/pages/Page2.tsx:27-34 | a row is determined by its fields |
| Parte.FilasUpdated | src/pages/Page2.tsx:214-222 | same length; rows of other members unchanged; matching rows change only the edited field |
| Parte.RangosUpdated | src/pages/Page2.tsx:224-237 | same length; rows of other members unchanged; in matching rows only the chosen end of the chosen range changes |
| Parte.PartePage.SyncWith | src/pages/Page2.tsx:131-151 | the rows become `Sync` of the old rows and the roster |
| Parte.PartePage.UpdateFila | src/pages/Page2.tsx:214-222 | the rows become `FilasUpdated` of the old rows |
| Parte.PartePage.UpdateRango | src/pages/Page2.tsx:224-237 | the rows become `RangosUpdated` of the old rows |
| Parte.PartePage.constructor | src/pages/Page2.tsx:74 | the page starts with no rows |
| Parte.NullIfEmpty | src/pages/Page2.tsx:190-196 | `x \|\| null`: null iff the text is empty, the text otherwise |
| Parte.ToRow | src/pages/Page2.tsx:187-197 | a sent row keeps the roll's key, the member's id and both flags; each text is sent as null when empty and as itself otherwise |
| Parte.FromRow | src/pages/Page2.tsx:111-118 | a loaded row keeps the member's id; a flag is set iff stored as true; a null text reads as empty and any other as itself |
| Parte.Payload | src/pages/Page2.tsx:187-197 | one remote row per row, with the roll's key and the member's id; the code is null iff empty |
| Parte.Load | src/pages/Page2.tsx:110-118 | one row per remote row, with its member id |
| Parte.RowRoundTrip | src/pages/Page2.tsx:111-118 | a row sent (lines 187-197) loads back as itself |
| Parte.PayloadRoundTrip | src/pages/Page2.tsx:187-197 | the whole payload loads back (lines 111-118) as the rows |
| Parte.RowFromRemote | src/pages/Page2.tsx:111-118 | a remote row with non-empty texts and set flags is sent back unchanged once loaded |
| Incendios.StorageKey | src/pages/Page4.tsx:21-24 | the roll's key under "infoex:incendios:" when there is a roll key, the temporary key otherwise |
| Incendios.StorageKeyInjective | src/pages/Page4.tsx:21-24 | different rolls have different keys |
| Incendios.ParteKeyIsNotTemp | src/pages/Page4.tsx:22 | a roll key built by the roll page never collides with the temporary key |
| Incendios.NewSalida | src/pages/Page4.tsx:69-78 | a new call-out has the fresh id, empty texts and a blank count |
| Incendios.Removed | src/pages/Page4.tsx:82-84 | no call-out left has the id, and no more are left than before |
| Incendios.RemovedMembers | src/pages/Page4.tsx:83 | a call-out is kept iff it was there and has another id |
| Incendios.RemovedCount | src/pages/Page4.tsx:83 | exactly the call-outs with the id are dropped |
| Incendios.RemovedAppend | src/pages/Page4.tsx:83 | removal keeps the order of what is left |
| Incendios.RemovedNone | src/pages/Page4.tsx:83 | removing an id nobody has changes nothing |
| Incendios.Apply | src/pages/Page4.tsx:87 | an edit sets the chosen field only |
| Incendios.SalidaExt | src/pages/Page4.tsx:5-14 | a call-out is determined by its id, texts and count |
| Incendios.Updated | src/pages/Page4.tsx:86-88 | same length; matching call-outs get the edit, the others are unchanged |
| Incendios.UpdatedTwice | src/pages/Page4.tsx:86-88 | two edits of the same text field leave the second value |
| Incendios.IncendiosPage.AddSalida | src/pages/Page4.tsx:66-80 | the list becomes the old list with a new call-out at the end |
| Incendios.IncendiosPage.RemoveSalida | src/pages/Page4.tsx:82-84 | the list becomes `Removed` of the old list |
| Incendios.IncendiosPage.UpdateSalida | src/pages/Page4.tsx:86-88 | the list becomes `Updated` of the old list |
| Incendios.IncendiosPage.constructor | src/pages/Page4.tsx:26 | the page starts with no call-outs |
| Incendios.AddThenRemove | src/pages/Page4.tsx:66-84 | adding a call-out and removing it by its fresh id gives the list back |
| Incendios.NumToColumn | src/pages/Page4.tsx:111 | a blank count is sent as null, a number as itself |
| Incendios.ToRow | src/pages/Page4.tsx:103-112 | a sent call-out carries the roll's key; each text is sent as null when empty and as itself otherwise; the count is null iff blank, the number otherwise |
| Incendios.FromRow | src/pages/Page4.tsx:46-55 | a loaded call-out takes the id the store gave it; a null text reads as empty and any other as itself; a null count reads as blank, a number as itself |
| Incendios.Save | src/pages/Page4.tsx:90-121 | no remote store and no roll are the two refusals, in that order; otherwise the rows are replaced by one per call-out under the roll's key |
| Incendios.Load | src/pages/Page4.tsx:44-56 | one call-out per stored row, with the row's id |
| Incendios.RowRoundTrip | src/pages/Page4.tsx:46-55 | a saved call-out (lines 103-112) loads back as itself with the id the store gave it |
| Incendios.SaveThenLoad | src/pages/Page4.tsx:100-112 | loading what a save wrote gives the call-outs back, each with its stored id |
| Admin.UnidadOCaseta | src/pages/Page6.tsx:150-151 | the unidad for a unidad row, the caseta for a caseta row, "" otherwise or when null |
| Admin.CentreOfSelectionRow | src/pages/Page6.tsx:150-151 | a row written with a selection's context (src/lib/db.ts:49-61) lists the centre the selection chose |
| Admin.Fields | src/pages/Page6.tsx:169-180 | nine values per row, in header order, the second being `unidadOCaseta` |
| Admin.Records | src/pages/Page6.tsx:158-184 | the header record, then one record per row |
| Admin.ExportRead | src/pages/Page6.tsx:157-184 | the exported text, read by an RFC 4180 reader, gives the headers and then each row's nine values, in order |
| Admin.ExportShape | src/pages/Page6.tsx:184 | the export reads as one record more than there are rows, each with nine values |
| Admin.Export | src/pages/Page6.tsx:184 | the exported text starts with the header line |
| Admin.AdminPage.ExportCsv | src/pages/Page6.tsx:157-192 | the file is named after the day and the page counted from one; its text reads back as `Records` of the rows |
| Admin.RangeShape | src/pages/Page6.tsx:90-91 | a page covers exactly pageSize indices, the next page starts right after it, and pages never overlap |
| Admin.From | src/pages/Page6.tsx:90 | page 0 starts at index 0, and for a positive page size a page starts at a non-negative index iff the page number is non-negative |
| Admin.To | src/pages/Page6.tsx:91 | a page ends one index before the next page starts |
| Admin.CeilDiv | src/pages/Page6.tsx:341 | the smallest count of pages of pageSize that holds every row |
| Admin.PageCount | src/pages/Page6.tsx:341 | one page when there is no row; otherwise the fewest pages that hold every row |
| Admin.Prev | src/pages/Page6.tsx:335 | never below zero, and one less when above zero |
| Admin.NextEnabledIff | src/pages/Page6.tsx:344 | the next button is enabled iff the next page starts before the last row |
| Admin.LoginAccepted | src/pages/Page6.tsx:48 | only the password "admin" is accepted |
| Admin.Norm | src/pages/Page6.tsx:30-35 | the normal form is no longer than the text and has no white space at either end |
| Admin.NormLowerCase | src/pages/Page6.tsx:30-35 | the normal form holds no upper-case ASCII letter |
| Admin.NormPadded | src/pages/Page6.tsx:30-35 | white space around the user name does not change its normal form |
| Admin.LoginAnySpelling | src/pages/Page6.tsx:30-55 | any five letters that read "admin" once accents are removed and case is lowered, padded with white space, log in with the password "admin" |
| Admin.LoginExamples | src/pages/Page6.tsx:46-55 | "admin", "ADMIN" and "ÁdmÍn", padded with white space, log in with "admin"; the password is case sensitive |
| Admin.AdminPage.constructor | src/pages/Page6.tsx:39-44 | logged in iff the session store holds "1" under "admin.auth"; page 0 of 100 rows |
| Admin.AdminPage.HandleLogin | src/pages/Page6.tsx:46-55 | accepted: the session store gets the mark, logged in, no error; refused: nothing stored, the error message set |
| Admin.AdminPage.Decide | src/pages/Page6.tsx:48-54 | accepted: the mark is stored, logged in, no error; refused: nothing stored, the error set; the form, filters and rows are kept |
| Admin.AdminPage.HandleLogout | src/pages/Page6.tsx:57-62 | the mark is removed, logged out, user and password emptied |
| Admin.AdminPage.Loaded | src/pages/Page6.tsx:118-119 | the rows and the count (0 when missing) of a finished fetch |
| Admin.AdminPage.SetFecha | src/pages/Page6.tsx:274-277 | the day changes and the page returns to 0 |
| Admin.AdminPage.SetMode | src/pages/Page6.tsx:283-286 | the search field changes and the page returns to 0 |
| Admin.AdminPage.SetQuery | src/pages/Page6.tsx:300-303 | the query changes and the page returns to 0 |
| Admin.AdminPage.SetPageSize | src/pages/Page6.tsx:312-315 | the page size changes and the page returns to 0 |
| Admin.AdminPage.PrevPage | src/pages/Page6.tsx:333-339 | a click on the disabled button does nothing; otherwise one page back, never below 0 |
| Admin.AdminPage.NextPage | src/pages/Page6.tsx:343-349 | a click on the disabled button does nothing; otherwise one page on, to a page that starts before the last row |
| Grid.Kept | src/pages/Page1.tsx:39 | `filter(Boolean)` keeps no empty part and never grows |
| Grid.KeptMembers | src/pages/Page1.tsx:39 | a text is kept iff it was passed and is not empty |
| Grid.KeptAppend | src/pages/Page1.tsx:39 | the parts kept keep their order |
| Grid.ClassNamesSplit | src/pages/Page1.tsx:39 | split on spaces, the class string gives each truthy part's own space-separated pieces, part after part; no truthy part gives "" |
| Grid.ClassNames | src/pages/Page1.tsx:39 | the class string is empty iff no part is truthy, and otherwise starts with the first truthy part |
| Grid.YearLength | src/pages/Page1.tsx:208 | a year of the day numbering has 366 days iff it is a Gregorian leap year |
| Grid.DaysInMonthTable | src/pages/Page1.tsx:208 | the `Date` day-number difference behind `getDate()` of day 0 of the next month is the Gregorian length of the month it names in the year the `Date` constructor reads |
| Grid.DaysInMonth | src/pages/Page1.tsx:208 | the day count of any month index is the Gregorian length of the month it names in the year the `Date` constructor reads, so from 28 to 31 |
| Grid.DaysInShownMonth | src/pages/Page1.tsx:208 | for months 0 to 11 and years from 100, 31, 30, 28 or 29 days by the Gregorian rule |
| Grid.FebruaryLength | src/pages/Page1.tsx:208 | February of a year from 100 has 29 days iff the year is a Gregorian leap year |
| Grid.TwoDigitYear | src/pages/Page1.tsx:208 | a year typed as 0 to 99 gets the month lengths of 1900 to 1999 |
| Grid.EnabledDays | src/pages/Page1.tsx:278 | a day cell is enabled iff the day is within the month; days 1 to 28 always are |
| Grid.Disabled | src/pages/Page1.tsx:278 | a day cell is disabled iff the day is past the month's Gregorian length; days up to 28 never are, days past 31 always are |
| Grid.PrevMonthAsWritten | src/pages/Page1.tsx:74 | January goes to 11, any other month to the one before; months stay within 0 to 11 |
| Grid.PrevFromJanuaryGoesForward | src/pages/Page1.tsx:74 | from January the shown month moves eleven months forward, since the year is kept |
| Grid.PrevMonth | src/pages/Page1.tsx:74 | one month back: within 0 to 11, the month index one less, the year one less from January |
| Grid.Needle | src/pages/Page1.tsx:222 | the trimmed, lower-case query is empty iff the query is blank |
| Grid.FilteredCrew | src/pages/Page1.tsx:221-225 | a blank query returns the crew unchanged; otherwise the members whose "apellidos nombre" holds the needle |
| Grid.MatchingMembers | src/pages/Page1.tsx:224 | a member is shown iff it is in the crew and its lower-case "apellidos nombre" contains the needle |
| Grid.MatchingAppend | src/pages/Page1.tsx:224 | the filter keeps the crew's order |
| Grid.MatchingIdempotent | src/pages/Page1.tsx:224 | filtering the filtered crew again changes nothing |
| Grid.FilterPadded | src/pages/Page1.tsx:222 | white space around the query changes nothing |
| Grid.InitialGrid | src/pages/Page1.tsx:209-214 | one empty day map for every crew id and nothing else |
| Grid.InitialGridEmpty | src/pages/Page1.tsx:209-214 | every cell of the initial grid is empty |
| Grid.CodeAt | src/pages/Page1.tsx:279 | a cell of a person or day the grid does not hold reads as empty, any other as the code stored there |
| Grid.SetCell | src/pages/Page1.tsx:227-232 | the persons of the grid plus the one set |
| Grid.SetCellReads | src/pages/Page1.tsx:227-232 | the cell set reads back as the code, or as empty after a clear (line 335); every other cell reads as before |
| Grid.GridPage.SetCellAt | src/pages/Page1.tsx:227-232 | the grid becomes `SetCell` of the old grid |
| Grid.GridPage.PrevMonthClicked | src/pages/Page1.tsx:74 | the month becomes `PrevMonthAsWritten` of the old one, within 0 to 11, and the year is kept |
| Grid.GridPage.SelectMonth | src/pages/Page1.tsx:84 | the month chosen, the year kept |
| Grid.GridPage.constructor | src/pages/Page1.tsx:350-353 | the page starts on the given month and year, with no query and the initial grid of the crew (lines 209-214) |
| Grid.GridPage.SetQuery | src/pages/Page1.tsx:106 | the query is the text typed; month, year and grid are kept |
| Grid.GridPage.SetYear | src/pages/Page1.tsx:94 | the year is the value entered; month, query and grid are kept |

## Left out

- Remote I/O is left out: the remote database calls, their errors and ordering, the debounce of the roll's save (src/pages/Page2.tsx:164-200), and the realtime subscription and `fetchRows` (src/pages/Page6.tsx:78-148). The model keeps only what is sent and what is read back.
- The server-side search and order of the administration listing (src/pages/Page6.tsx:98-113) are left out: `ilike` and `order` run in the database.
- The local JSON copies of the roll's rows and the call-outs are not modelled (src/pages/Page2.tsx:82-91 and 156-159, src/pages/Page4.tsx:29-35 and 62-64). They are `JSON.stringify` and `JSON.parse` of the whole state. The JSON round trip itself is proved in `Json.ParseSerialize`.
- The roll's header load from "infoex:header" (src/pages/Page2.tsx:46-55) is left out. The header is a parameter of the storage key.
- `horasExtrasTotal` and its `parseFloat` (src/pages/Page2.tsx:75, 178) are left out: floating point.
- The ISO date of the roll (src/pages/Page2.tsx:165) and today's date (src/pages/Page6.tsx:27) depend on the time zone. They are left out, and today's date is a parameter.
- `crypto.randomUUID()` becomes a parameter (`freshKey`, `freshId`, `id`). The stores assign ids to saved rows, so those ids are parameters too.
- Json.Parse: numbers are integers, so text that holds a fraction or an exponent does not parse. A `\u` escape of a lone surrogate does not parse, because a Dafny character is a Unicode scalar value; `JSON.parse` keeps it as a code unit. Surrogate pairs such as `\uD83D\uDE00` are joined into one character (`Json.SurrogateRead`), and white space between tokens is read as `JSON.parse` reads it. An object keeps every member in the order written, duplicate keys included, and numbers are unbounded; `JSON.parse` keeps one property per key (first position, last value), lists integer-like keys first and rounds integers beyond 2^53. So on a hand-edited stored roster, the text `Roster.Created` writes back can differ from what `JSON.stringify` would write, though `Lookup` reads the same values.
- Selection.GetNullCases: a stored selection whose text holds a fractional number or a lone surrogate escape reads as null in the model, where `JSON.parse` would read it. Indented text reads back (`Selection.GetIndented`).
- Roster.Created: a stored roster whose text holds a fractional number or a lone surrogate escape counts as unparseable in the model, so nothing is written. Indented text is read (`Roster.CreatedFromIndented`).
- Parte.RosterFrom: when the stored text does not parse, `JSON.parse` throws at src/pages/Page2.tsx:61 and the roster stays the initial empty list. The model gives that empty list but not the uncaught error. A text that parses to something other than a list of components is set as is by the source; the model gives the empty list.
- Admin.Row: the overtime hours are a number that may hold a fraction. The row keeps the decimal text `String` gives for that number; the conversion from number to text is not modelled.
- Grid.DaysInMonth: a `Date` holds at most 100 000 000 days either side of 1970, about 271 000 years. Beyond that, `getDate()` gives NaN and no day cell is disabled. The model gives the Gregorian month lengths for every year.
- Selection.Decode: a stored value of the wrong shape reads as null. The source casts it unchecked and hands it on. The same holds for `Componentes.FromJson` and `Parte.RosterFrom`.
- Admin.Norm: `normalize("NFD")` is modelled for the Latin-1 letters only. `toLowerCase` is modelled for ASCII and Latin-1 only.
- Admin.LoginAccepted: its own contract states only the password half of the check. The user-name half is stated by `Admin.NormPadded`, `Admin.LoginAnySpelling` and `Admin.LoginExamples`; a name that reaches "admin" only through combining marks or inner white space is not covered by a lemma.
- Grid.GridPage.SetYear: `parseInt` of the typed year, with its fallback to the current year and its NaN, is left out; the year is a whole number.
- Csv: records are joined by a line feed, as the source does, not by the carriage return and line feed of rule 1 in section 2 of RFC 4180.
- The UI-only parts of the pages are not part of this model:
  - the popover placement and the legend (src/pages/Page1.tsx:132-185);
  - the navigation after `crear`;
  - the alerts, the Blob download and the selector pages.

## Findings

| source | as written | input that shows it | evidently intended | confidence | as-written member | corrected member |
|---|---|---|---|---|---|---|
| src/pages/Page2.tsx:60 | the roll page reads its roster from "infoex:componentes", a key the roster page (src/pages/Page3.tsx:32) never writes | an empty store, then one `crear` on the roster page: the roll page still lists no member | read the roster the way the roster page does: "cuadernillo.componentes" first, then the two older keys | not executed | Roster.RollPageMissesNewComponent | Roster.RollPageSeesNewComponent |
| src/pages/Page1.tsx:74 | the previous-month button maps January (0) to December (11) and keeps the year | month 0 of 2025: the grid then shows December 2025, eleven months later | December of the year before | not executed | Grid.PrevFromJanuaryGoesForward | Grid.PrevMonth |
