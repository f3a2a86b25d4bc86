# Transavia connector: a Dafny model of offer extraction

This project models the core of the transavia scraper's `TransaviaConnector`
(`transavia/connector.py`). That core is the part of the connector that turns
the flight-result page into `Flight` records and drives the search form.

- **`Wrappers`**: `Option` and `Result`, used to model Python exceptions as
  values.
- **`Text`**: Python's `str.split` and `str.join` on one delimiter, with their
  round trip. It also covers the decimal digit strings that `strftime`
  zero-pads and `strptime` reads.
- **`Calendar`**: the `date` and `datetime` values the connector handles.
  - Proleptic Gregorian calendar, years 1 to 9999, leap years, month lengths,
    hour below 24, minute below 60.
  - `str_to_datetime`, i.e. `strptime("%d/%m/%Y %H:%M")`, proved to be the exact
    inverse of formatting in that layout.
  - The `%d-%m-%Y` date text typed into the search form.
  - The ISO 8601 `YYYY-MM-DD` and `HH:MM` renderings used by `__str__`.
- **`Records`**: `Travel` and `Flight` and their `__str__` columns. This
  includes the defect that `Flight.__str__` prints the departure time twice.
- **`Payload`**: `deserialize_flight_button`.
  - It takes the text between the first and second `|` of the button's
    `value`, splits it on `~` and drops the fields equal to `""` or `" "`.
  - Fields are mapped by position: number is `parts[0]+parts[1]`, then origin,
    departure time, destination and arrival time.
  - The price is the untouched text of the price element.
  - Each exception the Python code can raise becomes an explicit error value.
  - Proved: the decoder's exact outcome for every input, and a round trip from
    an encoded payload back to the flight.
- **`Connector`**:
  - `get_flights` is a method with nested loops over the page sections. Each
    section is a list of date tabs, and each tab carries whether it is
    available and the flight buttons shown once it is clicked. The method is
    proved equal to a specification that chains each tab's decoded buttons.
  - `fill_search_form`, `accept_cookies` and `search_travel` are methods of a
    `TransaviaConnector` class whose driver is modelled as a log of the
    interactions issued, in order.
  - Proved: the flattening, order, length and no-deduplication properties of
    the result list, and the order of the form interactions and the texts
    typed into each field.
  - The accumulation specification takes the per-button decoder as a
    parameter, so its lemmas hold for any decoder. The connector's methods
    use it with `deserialize_flight_button`.

On two points the code does something a reader might not expect; the model follows the code:

- **Decoder error order.** The decoder does not check the field count before
  parsing. Python evaluates the keyword arguments of `Flight(...)` in order:
  1. `parts[0:2]` (never fails);
  2. `parts[2]`, then `parts[4]`;
  3. the parse of `parts[3]`;
  4. `parts[5]`, then its parse.

  So a payload with exactly five fields and a malformed fourth field raises
  the timestamp error, not the index error (`transavia/connector.py:95-100`).
- **Price.** The price is annotated `int` (`transavia/connector.py:38`) but is
  assigned the raw text of `div.price` (`transavia/connector.py:101`). The
  model keeps it as a string.

## Model

| member | source | states |
|---|---|---|
| Text.Split | transavia/connector.py:94 | `str.split` on one character: at least one piece; exactly one piece iff the delimiter is absent; no piece contains the delimiter; joining the pieces gives back the text |
| Text.SplitJoin | transavia/connector.py:94 | splitting the join of delimiter-free parts gives back exactly those parts |
| Text.SplitPrefix | transavia/connector.py:94 | the text before the first delimiter is the first piece, and the rest is split independently |
| Text.PadDigits | transavia/connector.py:160 | zero-padded decimal rendering: all digits, and they read back as the number |
| Text.PadDigitsValue | transavia/connector.py:84 | every fixed-width digit string is the padded rendering of its value, so reading then writing digits is the identity |
| Calendar.StrToDateTime | transavia/connector.py:78-84 | `strptime("%d/%m/%Y %H:%M")`, with no value for the `ValueError`: a text that parses has sixteen characters, with `/`, `/`, a space and `:` at positions 2, 5, 10 and 13; the exact set of accepted texts is stated by StrToDateTimeExactly, the round trip by StrToDateTimeFormats |
| Calendar.StrToDateTimeFormats | transavia/connector.py:78-84 | `strptime("%d/%m/%Y %H:%M")`: whatever it returns formats back to the exact input text |
| Calendar.ParseFormat | transavia/connector.py:78-84 | formatting a valid datetime in `DD/MM/YYYY HH:MM` and parsing it back yields the same datetime |
| Calendar.StrToDateTimeExactly | transavia/connector.py:78-84 | parsing succeeds with `t` iff the text is `t` formatted: invalid days (incl. 29 February outside leap years), months, hours and minutes and any other layout fail |
| Calendar.FormDate | transavia/connector.py:160-163 | `%d-%m-%Y`: ten characters with dashes at positions 2 and 5; the digit groups are stated by FormDateFields |
| Calendar.FormDateFields | transavia/connector.py:160-163 | `%d-%m-%Y`: ten characters, dashes at positions 2 and 5, the digit groups read back as day, month and year |
| Calendar.IsoDate | transavia/connector.py:22-27 | `date.isoformat()`: ten characters with dashes at positions 4 and 7; the digit groups are stated by IsoDateFields |
| Calendar.IsoDateFields | transavia/connector.py:22-27 | `date.isoformat()`: `YYYY-MM-DD`, the digit groups read back as year, month and day |
| Calendar.TimeOfDay | transavia/connector.py:50-51 | `HH:MM`: five characters with a colon at position 2; the digit groups are stated by TimeOfDayFields |
| Calendar.TimeOfDayFields | transavia/connector.py:50-51 | `time().isoformat(timespec='minutes')`: `HH:MM`, the digit groups read back as hour and minute |
| Calendar.FormatExamples | transavia/connector.py:160 | 21 October 2021 is typed as `21-10-2021`; the timestamps of `Payload.DecodeExample` spell `21/10/2021 08:30` and `21/10/2021 10:15` |
| Records.LineEnds | transavia/connector.py:22-27 | a line of cells joined by space, bar, space starts with its first cell and ends with its last |
| Records.TravelToString | transavia/connector.py:22-27 | `Travel.__str__`: starts with the origin and ends with the return date in ISO form; all four columns are stated by TravelColumns |
| Records.FlightToString | transavia/connector.py:47-53 | `Flight.__str__` as written: starts with the flight number and ends with the price text followed by `€`; the columns are stated by FlightColumns, the missing arrival time by FlightToStringIgnoresArrival |
| Records.FlightToStringIntended | transavia/connector.py:47-53 | the corrected rendering: the same start and end; the columns are stated by IntendedFlightColumns, the arrival time it shows by IntendedShowsArrival |
| Records.SplitLine | transavia/connector.py:22-27 | cells joined by space, bar, space split back on the bar into one column per cell, each keeping the spaces that touch a bar |
| Records.FlightColumns | transavia/connector.py:47-53 | the bar-separated columns of `Flight.__str__` are number, origin, destination, the departure time twice, and the price followed by `€` |
| Records.FlightToStringIgnoresArrival | transavia/connector.py:50-51 | two different flights that differ only in arrival time render identically |
| Records.IntendedFlightColumns | transavia/connector.py:47-53 | the corrected rendering has six columns, the fourth the departure time and the fifth the arrival time |
| Records.IntendedShowsArrival | transavia/connector.py:47-53 | with the correction, flights whose arrival times differ in hour or minute render differently |
| Records.TravelColumns | transavia/connector.py:22-27 | the bar-separated columns of `Travel.__str__` are origin, destination and the two dates in ISO form |
| Payload.SecondSegment | transavia/connector.py:94 | element 1 of the value split on the bar character fails iff the value has no bar; the segment contains no bar |
| Payload.SecondSegmentIsolated | transavia/connector.py:94 | the text before the first bar and everything from the second bar on never affect the segment |
| Payload.Filter | transavia/connector.py:94 | the comprehension that drops `""` and `" "` never lengthens the list; which fields survive, in which order, is stated by FilterMembers, FilterAppend and FilterIdempotent |
| Payload.FilterMembers | transavia/connector.py:94 | a field survives the comprehension iff it occurs in the input and is neither `""` nor `" "` |
| Payload.FilterAppend | transavia/connector.py:94 | the comprehension distributes over concatenation, so kept fields stay in their original order |
| Payload.FilterKeepsAll | transavia/connector.py:94 | a list without blank fields passes unchanged |
| Payload.FilterIdempotent | transavia/connector.py:94 | filtering twice equals filtering once |
| Payload.FilterDropsBlank | transavia/connector.py:94 | a `""` or `" "` field anywhere is dropped without affecting the rest |
| Payload.PayloadFields | transavia/connector.py:94 | the field list exists iff the value contains a bar |
| Payload.PayloadFieldsClean | transavia/connector.py:94 | every field of the list is non-blank and contains neither a bar nor `~` |
| Payload.DeserializeFlightButton | transavia/connector.py:87-102 | the decoder: the malformed-payload error occurs iff the value has no bar, and a decoded flight carries the price text untouched; the whole outcome is stated by DeserializeOutcome, the round trip by DecodeEncoded |
| Payload.DeserializeOutcome | transavia/connector.py:87-102 | exact outcome: no bar gives the malformed-payload error; fewer than five fields, or five with a parsable fourth, gives the index error; an unparsable fourth or sixth field gives the timestamp error; otherwise success with number `parts[0]+parts[1]`, origin `parts[2]`, destination `parts[4]`, times parsed from `parts[3]` and `parts[5]`, and the price text untouched |
| Payload.PayloadFieldsOfEncoded | transavia/connector.py:94 | decoding the `~`-join of delimiter-free fields placed after the first bar recovers exactly its non-blank fields |
| Payload.DecodeOfParts | transavia/connector.py:95-102 | once the field list is known, only its first six entries decide the flight; later fields are ignored |
| Payload.DecodeEncoded | transavia/connector.py:87-102 | round trip: any payload whose first six non-blank fields are a flight's fields decodes to that flight, whatever the prefix, blank placeholders, extra fields and trailing segment |
| Payload.DecodeFlightFields | transavia/connector.py:87-102 | round trip for the plain six-field payload |
| Payload.FormattedIsField | transavia/connector.py:84 | a formatted timestamp is a non-blank field free of the bar and `~`, so it survives the split and the filter |
| Payload.DecodeExample | transavia/connector.py:87-102 | the payload `X`, bar, then `AB~12~Paris~21/10/2021 08:30~Amsterdam~21/10/2021 10:15`, decodes to flight `AB12`, Paris to Amsterdam, 08:30 to 10:15 on 21 October 2021 |
| Connector.ChainAssociative | transavia/connector.py:189-192 | appending stage results is associative, including the first-error-wins case |
| Connector.DecodeAll | transavia/connector.py:120-125 | decoding a tab's buttons in order with any per-button decoder yields, on success, one flight per button |
| Connector.DecodeAllElements | transavia/connector.py:120-125 | on success the i-th flight is the i-th button decoded |
| Connector.DecodeAllSucceeds | transavia/connector.py:120-125 | decoding all buttons succeeds iff every button decodes |
| Connector.DecodeAllFirstFailure | transavia/connector.py:120-125 | on failure, the error is that of the first button that fails, all buttons before it decoding |
| Connector.DecodeAllAppend | transavia/connector.py:120-125 | decoding a concatenation is decoding the first part, then the second |
| Connector.DecodeAllFailurePrefix | transavia/connector.py:120-125 | a failure among the first buttons is the result of the whole list |
| Connector.ExtractFailurePrefix | transavia/connector.py:114-125 | a failure in an early tab is the result of the whole section |
| Connector.Extract | transavia/connector.py:104-126 | the specification of `get_flights`: on success, one flight per button of the available tabs; flattening and order are stated by ExtractFlattens and ExtractOrder |
| Connector.ExtractFlattens | transavia/connector.py:104-126 | `get_flights` is the decoder applied to the available tabs' buttons in tab order, then document order; that list has as many buttons as the tabs together |
| Connector.ExtractOrder | transavia/connector.py:104-126 | on success the flights are the available tabs' buttons decoded one for one, in order, and their number is the sum of the per-tab button counts |
| Connector.ExtractNoAvailability | transavia/connector.py:114-118 | with no available tab the result is the empty list |
| Connector.ExtractAppend | transavia/connector.py:110-126 | extraction over consecutive groups of tabs appends their results |
| Connector.ExtractKeepsDuplicates | transavia/connector.py:110-126 | no deduplication: tabs seen twice yield every flight twice |
| Connector.FormActions | transavia/connector.py:137-165 | the eleven interactions of `fill_search_form`, the last being RETURN in the destination field; the texts and their order are stated by FormTypesTravel and FormOrder |
| Connector.FormTypesTravel | transavia/connector.py:155-165 | every text typed into a field is the travel's value for that field, with dates as `%d-%m-%Y`; each field is typed into exactly once |
| Connector.FormOrder | transavia/connector.py:155-165 | the departure date is typed before the return date; each date field is cleared just before typing and followed by a click on the origin field; the last interaction is RETURN in the destination field |
| Connector.SearchResult | transavia/connector.py:186-194 | the result of `search_travel`: on success, as many flights as buttons on the available tabs of both sections; the order is stated by SearchOrder and SearchFlattens |
| Connector.SearchOrder | transavia/connector.py:186-194 | on success, every outbound flight precedes every inbound flight, and the count is the outbound plus inbound button counts |
| Connector.SearchFlattens | transavia/connector.py:186-194 | a search decodes the outbound then the inbound buttons of the available tabs, and succeeds iff each of those buttons decodes |
| Connector.TransaviaConnector.constructor | transavia/connector.py:62-66 | keeps the headless flag; no interaction has been issued yet |
| Connector.TransaviaConnector.AcceptCookies | transavia/connector.py:128-135 | clicks the banner button when the banner is shown, and otherwise does nothing and raises nothing |
| Connector.TransaviaConnector.FillSearchForm | transavia/connector.py:137-165 | appends exactly the eleven form interactions to the driver log, in source order |
| Connector.TransaviaConnector.DecodeButtons | transavia/connector.py:120-125 | the inner loop returns exactly the decoding specification for `deserialize_flight_button`: one flight per button in order, or the first button's error |
| Connector.TransaviaConnector.GetFlights | transavia/connector.py:104-126 | the nested loops return exactly the extraction specification: the tabs' decoded buttons chained in order, or the first decoding error |
| Connector.TransaviaConnector.SearchTravel | transavia/connector.py:167-194 | logs navigation to the home page, the cookie click, then the form; returns the outbound flights followed by the inbound flights, or the first decoding error |

## Left out

- Browser construction in `__init__` (`transavia/connector.py:62-75`): the Chrome options and the Firefox driver are driver I/O. Only the `headless` flag is kept.
- The 60-second `WebDriverWait` for the origin input (`transavia/connector.py:175-179`) is timing behaviour. The model records the navigation only, and assumes the page becomes ready.
- `URL_SEARCH` (`transavia/connector.py:60`) is not used by any modelled operation.
- Element lookups that raise `NoSuchElementException` are not modelled: the form inputs, the result sections, the `.nav-days` form, the tab's `.button`, and `div.price`. The page is given as data, so these lookups always succeed.
- Connector.TransaviaConnector.GetFlights: clicking a tab is abstracted as that tab carrying the buttons shown after the click. The click does not appear in the interaction log.
- Payload.DeserializeFlightButton: a button without a `value` attribute (`get_attribute` returning `None`) is not modelled. The value is always a string.
- Calendar.StrToDateTime: only the fixed-width layout is accepted, with ASCII digits. `strptime` is more lenient. The space of the format matches any run of whitespace, so two spaces or a tab between date and time also parse. Day, month, hour and minute may each be a single digit, and the day may be a space followed by a digit. Its `\d` also matches non-ASCII decimal digits. That leniency belongs to the library, not to this repository; the year is exactly four digits in both.
- Calendar.FormDate: `%Y` for years below 1000 is platform-dependent in Python. The model pads to four digits.
- Seconds and time zones: the connector's datetimes have minute resolution and are naive.
- CAPTCHA handling is only a comment in the source (`transavia/connector.py:184`).
- `transavia/main.py` (command-line parsing, `date.fromisoformat`, printing) is not part of this model.

## Findings

| source | as written | input that shows it | evidently intended | confidence | as-written member | corrected member |
|---|---|---|---|---|---|---|
| transavia/connector.py:50-51 | both the fourth and the fifth column of `Flight.__str__` format `departure_time`, so the arrival time is never shown | a flight departing at 08:30 and arriving at 10:15 prints 08:30 in both the fourth and the fifth column | the fifth column formats `arrival_time` | high; not executed | Records.FlightToStringIgnoresArrival | Records.IntendedShowsArrival |
