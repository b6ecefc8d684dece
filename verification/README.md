# MIC/CRT manager front end: verified domain rules

This project models the client-side domain rules of the React front end of a
manager for international road-transport documents. It covers the CRT
(Conhecimento de Transporte Rodoviário) and the MIC/DTA (Manifesto
Internacional de Carga / Declaração de Trânsito Aduaneiro) in its NORMAL and
LASTRE (empty-truck) kinds. It also covers carriers (transportadoras) and
their route licences. The rules live inside React components as pure
computations. Here they are written as Dafny functions over immutable
records, and their properties are proved.

- `Wrappers`: `Option`.
- `Seqs`: the array idioms the components use.
  - `filter`, `some` and `findIndex`;
  - first-occurrence deduplication (`Array.from(new Set(..))` and `filter` with `findIndex(..) === i`);
  - the `indexOf(v) !== i` repeat filter;
  - `sort` with a numeric comparator, as a stable insertion sort.
- `Text`:
  - ASCII `toLowerCase` and `includes`;
  - `split` and `join`;
  - `parseInt(s, 10)`, including its skip of leading whitespace and line terminators;
  - `replace(/\D/g, '')`;
  - decimal rendering of ids.
- `DateUtils`: `parseDateBR`, and the falsy guard and DD/MM/YYYY recogniser of `formatDateBR`.
- `Domain`: the records (licence, carrier, country, CRT, MIC/DTA) and the id lookups.
- `Licensing`: the route-licence gate `hasLicenseBetweenCountries` and the allowed-country lists.
- `CrtForm`, `MicDtaForm`, `CarrierForm`: the three dialogs.
  - auto-fill effects;
  - field validation;
  - input mask;
  - edit reset;
  - the outcome of a submission: validation errors, an error toast, or the single request sent.
- `CarrierList`, `CrtList`, `MicDtaList`, `Dashboard`: the list screens and the dashboard.
  - search and carrier filters;
  - licence display and deduplication;
  - expiry colours;
  - statistics;
  - the five most recent documents;
  - the expiry panels.

A JavaScript value that is absent or falsy is modelled as `""` for strings, and as `None` for an unloaded dataset or an unselected record. `NaN` from `parseInt` is `None`. The current time never appears as a global:

- The carrier list takes `daysUntil`. For an expiry string it gives the (real) number of days from now until the date `new Date(year, month - 1, day)` builds from the string's `split('/').map(Number)` parts, or `None` when that date is invalid.
- The dashboard takes `stamp` and `now`. `stamp` gives the millisecond instant of an expiry string, or `None`. `now` is the current instant.

Everything else is computed from the inputs.

## Model

| member | source | states |
|---|---|---|
| DateUtils.ParseDateBR | src/utils/dateUtils.js:86-104 | A date is returned only for a non-empty string with exactly two '/'. Its three parts must parse (`parseInt`, which skips leading whitespace such as a no-break space) to the returned day, month and year, and `new Date(year, month-1, day)` must read back the same fields. |
| Text.ParseSkipsLeadingSpace | src/utils/dateUtils.js:92-94 | A leading tab, vertical tab, form feed, line terminator, byte-order mark or Unicode space separator does not change what `parseInt` reads. |
| DateUtils.ParseDateBRComplete | src/utils/dateUtils.js:89-101 | The converse: three '/'-separated numerals naming a day that `Date` keeps are always accepted, with exactly those fields. |
| DateUtils.ParseFormatRoundTrip | src/utils/dateUtils.js:92-103 | Parsing the DD/MM/YYYY text of a date gives the date back exactly when the day exists. Day 31 in a 30-day month, 29/02 of a common year, month 13 and years 0..99 give null. |
| DateUtils.FormatDateBRSource | src/utils/dateUtils.js:10-27 | A falsy input shows '-'. A DD/MM/YYYY-shaped string yields the three numbers `split('/').map(Number)` reads, which are the arguments passed to `new Date(year, month - 1, day)`; printed back zero-padded, they give the input again. Any other string is left to the engine's parser. |
| DateUtils.FormatAgreesWithParse | src/utils/dateUtils.js:18-20 | On a DD/MM/YYYY string that `parseDateBR` accepts, `formatDateBR` builds the same date. |
| Domain.FindCarrier | src/pages/CRT/CRTForm.js:62-64 | The selected carrier is a listed carrier whose id text equals the selector value. None means the data is missing or no carrier has that id. |
| Domain.FindCrt | src/pages/MicDta/MicDtaForm.js:81 | The same for the selected CRT. |
| Licensing.HasLicenseBetweenCountries | src/pages/CRT/CRTForm.js:89-98 | False without a carrier. True exactly when some licence's destination and the home country are the two endpoints, in either order. When true, the home country is the origin or the destination. |
| Licensing.EligibilitySymmetric | src/pages/CRT/CRTForm.js:93-96 | Swapping origin and destination never changes the verdict. |
| Licensing.HomeOriginEligibility | src/pages/CRT/CRTForm.js:92-97 | With the home country as origin, a route is eligible exactly when some licence names the destination. |
| Licensing.CountryName | src/pages/CRT/CRTForm.js:122 | The name of the first country with that code when it is non-empty, otherwise the code itself. The code itself is also the result when the list is not loaded or has no country with that code. |
| Licensing.GetAllowedCountries | src/pages/CRT/CRTForm.js:115-124 | Empty without a carrier. Otherwise the codes are pairwise distinct. A code is listed exactly when it is the home country or a licence destination. The codes are a subsequence of the destinations followed by home, listed in the order of their first occurrence there, as `Array.from(new Set(...))` lists them. Each name is the looked-up name. |
| Licensing.AllowedDestinos | src/pages/CRT/CRTForm.js:128 | The allowed countries other than the selected origin, in order. Every other allowed code survives. |
| Licensing.EligibleRouteIsOffered | src/pages/CRT/CRTForm.js:115-128 | Both endpoints of an eligible route are allowed countries. The destination of an eligible route from another country is offered as a destination. |
| CrtForm.AutoFillOrigin | src/pages/CRT/CRTForm.js:66-71 | The selected carrier's home country is copied into the origin and nothing else changes. The same carrier stays selected. |
| CrtForm.AutoFillOriginGate | src/pages/CRT/CRTForm.js:66-103 | The effect is idempotent. After it fires, the submit gate passes exactly when some licence names the chosen destination. |
| CrtForm.Validate | src/pages/CRT/CRTForm.js:151-268 | No errors exactly when every field is filled and the quantity lies in 1..100. The quantity is flagged exactly when it is out of range. |
| CrtForm.OnSubmit | src/pages/CRT/CRTForm.js:100-112 | A create request is sent exactly when the route is eligible. It carries the selected carrier's id as an integer and copies every other field. The home country is an endpoint of every CRT requested. |
| CrtForm.HandleSubmit | src/pages/CRT/CRTForm.js:135 | Validation runs first: errors block the handler. The error toast appears exactly for valid forms on an ineligible route. A request that is sent has a quantity in 1..100 and a carrier id. |
| MicDtaForm.AutoFill | src/pages/MicDta/MicDtaForm.js:110-116 | In NORMAL mode with a CRT selected, the form takes the CRT's carrier id (which parses back to the id) and route. Otherwise the form is unchanged. The CRT id and the quantity are never touched. |
| MicDtaForm.AutoFillIdempotent | src/pages/MicDta/MicDtaForm.js:110-116 | Running the effect again after it has fired changes nothing. |
| MicDtaForm.Validate | src/pages/MicDta/MicDtaForm.js:211-382 | The quantity must lie in 1..100. The CRT is required only for NORMAL and the carrier only for LASTRE. Origin and destination are required in LASTRE mode, and in NORMAL mode once a CRT is selected. A LASTRE form is valid exactly when quantity, carrier, origin and destination are all filled in and in range. A NORMAL form is valid exactly when the quantity is in range, a CRT is chosen and, if that CRT is found, both route fields are filled in. |
| MicDtaForm.OnSubmit | src/pages/MicDta/MicDtaForm.js:133-155 | The licence gate applies to both kinds: the error toast appears exactly when no licence links the countries. A NORMAL request carries only `tipo`, quantity and the parsed CRT id. A LASTRE request carries `tipo`, quantity, the carrier's id and the route, and no CRT. |
| MicDtaForm.NormalValidity | src/pages/MicDta/MicDtaForm.js:110-116 | Without a selected CRT, a NORMAL form is checked only for its CRT selector and quantity. Once the effect has copied in a CRT that carries both route countries, the form is valid exactly when its quantity is in range. |
| MicDtaForm.HandleSubmit | src/pages/MicDta/MicDtaForm.js:163 | Validation errors block the handler. A request that is sent has a quantity in 1..100 and passed the licence gate. |
| MicDtaForm.NormalSubmitFollowsCrt | src/pages/MicDta/MicDtaForm.js:109-147 | Once a CRT has been copied into the form, a NORMAL submission succeeds exactly when the CRT's own carrier holds a licence for the CRT's route. The request then names that CRT by id. |
| MicDtaForm.LastreDestinationOptions | src/pages/MicDta/MicDtaForm.js:157-159 | The LASTRE destination options never include the chosen origin and are drawn in order from the allowed countries. They are empty without a carrier and offer every destination of an eligible route. |
| CarrierForm.OrOne | src/pages/Transportadoras/TransportadoraForm.js:98-99 | The fallback to 1 for a missing or zero initial number: never zero, and unchanged when non-zero. |
| CarrierForm.InitialRows | src/pages/Transportadoras/TransportadoraForm.js:80-93 | No carrier, or no licences, gives one blank row. A Brazilian carrier keeps, in order, exactly its licences to other countries, each as often as it occurs. A foreign carrier keeps all its licences. |
| CarrierForm.EditDefaults | src/pages/Transportadoras/TransportadoraForm.js:94-101 | The reset loads the carrier's own fields and those rows. The initial numbers are never zero and keep a non-zero stored value. |
| CarrierForm.BrazilianOnlyBrazilRowsLeavesNone | src/pages/Transportadoras/TransportadoraForm.js:81-84 | A Brazilian carrier whose licences all point to Brazil is loaded with no row at all. |
| CarrierForm.HeaderErrors | src/pages/Transportadoras/TransportadoraForm.js:165-220 | No errors exactly when name, country and registration are filled and both initial numbers are at least 1. |
| CarrierForm.DefaultInitialNumbersValid | src/pages/Transportadoras/TransportadoraForm.js:98-99 | The loaded initial numbers pass the "at least 1" rule for a new carrier, and for any stored numbers that are not negative. |
| CarrierForm.CheckParsedDate | src/pages/Transportadoras/TransportadoraForm.js:308-318 | The numeric checks accept exactly the days that exist in a year of 2000..2100. |
| CarrierForm.ValidateExpiry | src/pages/Transportadoras/TransportadoraForm.js:298-319 | An empty value is "required". A non-empty value without the DD/MM/YYYY shape is a format error. Otherwise the verdict is the numeric checks on its fields. An accepted value is one `parseDateBR` accepts with the same fields, in 2000..2100. |
| CarrierForm.ValidateExpiryExactly | src/pages/Transportadoras/TransportadoraForm.js:304-318 | The DD/MM/YYYY text of a date is accepted exactly when the day exists and the year lies in 2000..2100. |
| CarrierForm.MaskExpiry | src/pages/Transportadoras/TransportadoraForm.js:326-335 | At most 10 characters, '/' at indexes 2 and 5 and digits elsewhere. Its digits are the first (at most 8) digits of the input, in order. A '/' is never the last character: it appears only once a digit follows it. |
| CarrierForm.MaskIdempotent | src/pages/Transportadoras/TransportadoraForm.js:326-335 | Masking a masked value changes nothing. |
| CarrierForm.MaskKeepsShape | src/pages/Transportadoras/TransportadoraForm.js:326-335 | A complete DD/MM/YYYY value is left as typed. |
| CarrierForm.NoCompleteRowIff | src/pages/Transportadoras/TransportadoraForm.js:107-114 | The kept rows are empty exactly when no row has destination, licence and expiry. |
| CarrierForm.RepeatedExpiryIff | src/pages/Transportadoras/TransportadoraForm.js:116-122 | The `indexOf(v) !== i` filter is non-empty exactly when two complete rows share an expiry. |
| CarrierForm.DistinctExpiries | src/pages/Transportadoras/TransportadoraForm.js:116-122 | When that filter is empty, the kept rows' expiries are pairwise distinct. |
| CarrierForm.OnSubmit | src/pages/Transportadoras/TransportadoraForm.js:105-134 | Nothing is sent when no row is complete, or when two complete rows repeat an expiry. Otherwise an update (when editing, with the carrier's id) or a create is sent. Only the rows differ from the form: exactly the complete rows in order, non-empty, with distinct expiries. |
| CarrierList.FilterCarriers | src/pages/Transportadoras/TransportadorasList.js:68-76 | Empty without data. Otherwise an order-preserving subsequence holding exactly the carriers whose lower-cased name or country contains the lower-cased term, or whose registration contains the term as typed, each as often as it occurs in the data. |
| CarrierList.EmptySearchKeepsAll | src/pages/Transportadoras/TransportadorasList.js:71-75 | An empty search keeps every carrier, in order. |
| CarrierList.SearchNameIgnoresCase | src/pages/Transportadoras/TransportadorasList.js:72-74 | The name test ignores the case of the term. |
| CarrierList.ExpiryColor | src/pages/Transportadoras/TransportadorasList.js:196-211 | Exactly one colour. Error when the expiry is in the past. Warning up to 6 × 30.44 days ahead. Success beyond that, or for an invalid date. |
| CarrierList.ExpiryColorMonotone | src/pages/Transportadoras/TransportadorasList.js:202-211 | A later expiry is never shown as more urgent. |
| CarrierList.ChipFor | src/pages/Transportadoras/TransportadorasList.js:193-212 | A licence without expiry is a success chip labelled `dest:licenca`. Otherwise the label adds " • Vencida: " exactly for the error colour, and " • Vence em: " for the others. |
| CarrierList.FirstOnly | src/pages/Transportadoras/TransportadorasList.js:190-191 | At most one licence, the first, and one exactly when there is any. |
| CarrierList.TableLicences | src/pages/Transportadoras/TransportadorasList.js:187-230 | A foreign carrier shows its first licence. A Brazilian one shows its licences to other countries, keeping the first of each (destination, expiry) pair in order. The pairs shown are distinct and cover every pair. |
| CarrierList.DetailLicences | src/pages/Transportadoras/TransportadorasList.js:400-456 | The detail dialog shows a foreign carrier's first licence, and every licence of a Brazilian carrier to another country, in order and each as often as it occurs, so nothing is deduplicated. |
| CarrierList.TableWithinDetail | src/pages/Transportadoras/TransportadorasList.js:225-230 | The table cell shows an in-order selection of the dialog's licences with the same (destination, expiry) pairs. |
| CarrierList.Chips | src/pages/Transportadoras/TransportadorasList.js:231-262 | One chip per licence, in order. |
| CrtList.FilterCrts | src/pages/CRT/CRTList.js:71-87 | Empty without data. Otherwise an order-preserving subsequence holding exactly the CRTs that match both tests, each as often as it occurs in the data. The search test is the term, case-insensitively, in number, invoice, exporter, importer or carrier name. The carrier test is that no carrier is chosen or the id text equals the chosen one. |
| CrtList.NoFilterKeepsAll | src/pages/CRT/CRTList.js:75-83 | An empty term with no carrier chosen keeps every CRT, in order. |
| CrtList.CarrierFilterSelects | src/pages/CRT/CRTList.js:82-83 | Choosing carrier `id` keeps exactly the search results whose carrier id is `id`. |
| CrtList.SearchIgnoresCase | src/pages/CRT/CRTList.js:76-80 | Typing the term in lower case lists the same CRTs. |
| MicDtaList.CurrentQuery | src/pages/MicDta/MicDtaList.js:93-107 | Tab 1 reads the NORMAL query, tab 2 the LASTRE query, any other tab the full query. Data and loading flag come from that same query. |
| MicDtaList.FilterMicDtas | src/pages/MicDta/MicDtaList.js:110-125 | Empty without data. Otherwise an order-preserving subsequence holding exactly the documents matching both the search test (number, carrier name, or CRT number when present) and the carrier filter, each as often as it occurs in the data. |
| MicDtaList.NoCrtNumberNeverMatches | src/pages/MicDta/MicDtaList.js:115-118 | A document without CRT number is found only by its number or carrier name. |
| MicDtaList.NoFilterKeepsAll | src/pages/MicDta/MicDtaList.js:115-121 | An empty term with no carrier chosen keeps the whole dataset. |
| MicDtaList.CarrierFilterSelects | src/pages/MicDta/MicDtaList.js:120-121 | Choosing carrier `id` keeps exactly the search results of that carrier. |
| MicDtaList.NormalTabAgreesWithAllTab | src/pages/MicDta/MicDtaList.js:93-99 | If the NORMAL query returns the NORMAL documents of the full query, the NORMAL tab lists exactly the NORMAL rows of the all tab, in order. |
| Dashboard.ComputeStats | src/pages/Dashboard/Dashboard.js:68-83 | All zero unless the three datasets are loaded. Otherwise the dataset sizes and the numbers of NORMAL and LASTRE documents, which add up to at most the total. |
| Dashboard.KindCardsPartitionTotal | src/pages/Dashboard/Dashboard.js:73-74 | When every document is NORMAL or LASTRE, the two kind counts add up to the total. |
| Dashboard.MicDtaTypeLabel | src/pages/Dashboard/Dashboard.js:96-98 | 'MIC/DTA Normal' exactly for `tipo` NORMAL, 'MIC/DTA Lastre' otherwise. |
| Dashboard.AllDocuments | src/pages/Dashboard/Dashboard.js:89-102 | Every CRT, then every MIC/DTA, each as its entry. |
| Dashboard.RecentDocuments | src/pages/Dashboard/Dashboard.js:86-107 | Empty unless both lists are loaded. Otherwise min(5, total) entries drawn from all documents, newest first. No document left out is newer than one shown, and with 5 or fewer documents all are shown. |
| Dashboard.NewestPrefix | src/pages/Dashboard/Dashboard.js:104-106 | Sorting newest first and slicing keeps the newest documents. |
| Dashboard.CeilDiv | src/pages/Dashboard/Dashboard.js:121 | `Math.ceil(a / b)` is the least `q` with `a <= q * b`. |
| Dashboard.CarrierInfosMembers | src/pages/Dashboard/Dashboard.js:118-127 | The entries are exactly those built from the carrier's licences whose expiry is a valid date. |
| Dashboard.CarrierInfosOnePerLicence | src/pages/Dashboard/Dashboard.js:118-135 | Each licence with a valid expiry yields exactly one entry, in the licences' order, so identical licences yield identical entries that are all kept. |
| Dashboard.AllInfos | src/pages/Dashboard/Dashboard.js:117-137 | The entries are exactly those built from licences of any carrier whose expiry is a valid date. |
| Dashboard.AllInfosSingle | src/pages/Dashboard/Dashboard.js:117-118 | For one carrier, the entries are that carrier's own entries. |
| Dashboard.AllInfosAppend | src/pages/Dashboard/Dashboard.js:117-137 | The entries of two carrier lists are those of the first followed by those of the second, so identical entries from different carriers are all kept. |
| Dashboard.LicencasVencimento | src/pages/Dashboard/Dashboard.js:110-144 | Both panels are empty without data. "vencidas" holds the entries with negative days remaining and "proximasVencimento" those with 0..30 days, with their multiplicities. Each panel is sorted by expiry, earliest first. No entry is in both. |
| Dashboard.Panel | src/pages/Dashboard/Dashboard.js:141-142 | A panel keeps exactly the entries its test admits, each as often as it occurs, sorted by expiry with the earliest first. |
| Dashboard.PanelOfLicence | src/pages/Dashboard/Dashboard.js:119-136 | An entry is expired exactly when its expiry lies at least a day in the past. It is due soon exactly when its expiry is after that and at most 30 days ahead. Otherwise it is in neither panel. |
| Dashboard.CeilDivBounds | src/pages/Dashboard/Dashboard.js:121-135 | The ceiling of the day count is negative exactly when the gap is at least a day in the past, and lies in 0..30 exactly when the gap is in (-1 day, 30 days]. |

## Left out

- Document numbering is done by the server behind the create requests. No client code computes numbers, so there is nothing here to model.
- HTTP calls, react-query caching and invalidation, toasts, loading and error cards, dialogs, clipboard access and all JSX rendering are out. A submission is modelled by its outcome: validation errors, an error toast, or the one request it would send.
- The clock and date construction depend on the engine, the time zone and the current time. They enter as parameters. The carrier list's `daysUntil` stands for `split('/').map(Number)` and `new Date(year, month - 1, day)` in local time (which rolls over, so 31/02/2025 counts as 3 March), together with the clock. The dashboard's `stamp` stands for `new Date(string)`, and its `now` for the clock. CRT and MIC/DTA `createdAt` values are taken to be already-parsed millisecond instants.
- Floating-point arithmetic is taken as exact: the division by 86 400 000 ms and the division by 30.44 (the month threshold is stated as 182.64 days).
- `toLowerCase` is ASCII lower-casing. Unicode case mapping is not modelled.
- Quantities are whole numbers. The browser number field, and `parseInt` applied to it, are not modelled.
- `toLocaleDateString` and `toISOString` depend on locale and timezone. `formatDateBR` is modelled only up to the arguments it passes to `new Date`. The model does not cover `Date`'s roll-over of out-of-range fields (`31/02/2020` is shown as 02/03/2020), the `isNaN` check or the locale rendering. `formatDateTimeBR` and `dateToISO` are not modelled.
- The years that `new Date(y, m-1, d)` maps from 0..99 to 1900..1999 are treated as failing the round trip, as the code does. The two boundary years of the ECMAScript time range are treated as out of range as a whole.
- The carrier form renders its rows filtered (TransportadoraForm.js:247-249) but registers them by their filtered index. Field registration and rendering are not modelled. The per-row `required` rules for destination and licence, and for `idoneidade` on each row of a foreign carrier (TransportadoraForm.js:283-291), are not modelled either. Only the submit-time filter is.
- The Brazilian-carrier branch nested inside the foreign-carrier branch of the table (TransportadorasList.js:263-297) can never run, because the outer test already split on the home country. It is not modelled.
- The CRT form's origin selector options, and the MIC/DTA form's NORMAL-mode route selectors, are display-only and not modelled.
- The dialog that adds a MIC/DTA to a CRT, the CRT–MIC/DTA viewer, and the static constant lists are outside the modelled screens.
- The MIC/DTA form's help text for LASTRE says every carrier may issue one regardless of licences. The submit handler applies the licence gate to LASTRE too, and the model follows the code.
- Seqs.SortBy: its contract states sortedness and permutation but not stability, although the definition is stable like `Array.prototype.sort`.
