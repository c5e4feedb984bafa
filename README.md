# Home-automation server: a Dafny model

The repository is a small home-automation back end written in C for
Windows. Two servers share one SQLite table, `etat_appareils`, which keeps
one row per device.

- `domoserver.c` is the current server. It serves static pages. Its
  `/update?nom=…&etat=…&type=…` route records the requested state and
  bumps an ON or OFF counter. It then forwards a command
  `type:input:etat` over TCP to a device simulator at the address stored
  for the device, falling back to a default address. `/state` reports three
  test devices. `/reset-db` empties the table and re-seeds it from a
  built-in catalog of devices.
- `main.c` is the older server. Its table has no address columns. Any
  request that merely contains a pattern such as `lumiere=on` or
  `volets=reset` switches a device or zeroes its counters. The page it
  returns shows each state and an alert once a device has been switched
  off five times.

The model keeps the table as a map from device name (the UNIQUE column
`appareil`) to the rest of its row. The two servers' table handles are
classes (`Registry.DeviceTable`, `Legacy.LegacyTable`) whose `rows` field
their methods reassign. Each method is proved against a function on
`rows`; the properties are lemmas about those functions. The decoding
loops (`url_decode`, the `strtok` loop of `extract_query`) are methods with
loop invariants, proved equal to recursive reference functions.

`domoserver.c` builds two of its SQL statements as text, pasting values
between single quotes. `Registry.DeviceTable` follows that code as written
(`SeededAsWritten`, `TransitionAsWritten`): a value holding an apostrophe
makes the statement fail, and nothing is inserted. The intended behaviour
(`Seeded`, `Transition`) is specified beside it, and most properties are
proved about it. Bridge lemmas show that the two agree whenever no
apostrophe is involved, so those properties carry over to the class (see
"## Findings").

The clock and the outcome of `connect()` come in as parameters: `now`, and
`reachable`.

Files:

| file | module | models |
|---|---|---|
| `cstrings.dfy` | `CStrings` | C string reading (`strchr`, NUL termination, `%d`) |
| `url_codec.dfy` | `UrlCodec` | `url_decode`, including what `strtol` does with odd pairs |
| `query.dfy` | `Query` | `extract_query` |
| `registry.dfy` | `Registry` | the table of `domoserver.c` and its operations |
| `forwarder.dfy` | `Forwarder` | `envoyer_au_simulateur`'s endpoint choice and message |
| `router.dfy` | `Router` | request-line parsing and the route chain of `main` |
| `legacy.dfy` | `Legacy` | `main.c` |

## Model

| member | source | states |
|---|---|---|
| CStrings.Find | domoserver.c:404 | `strchr`: the index of the first occurrence, or the length when the character is absent, with nothing equal to it before that index |
| CStrings.FindAfter | domoserver.c:404-406 | searching a concatenation whose first part lacks the character finds it in the second part, shifted by the first part's length |
| CStrings.SplitAtFirst | domoserver.c:50 | in `a + [c] + b` with `c` not in `a`, the first `c` sits at `|a|`, and the two slices around it give back `a` and `b` |
| CStrings.UntilNul | domoserver.c:77 | reading a buffer as a C string yields a NUL-free prefix that stops at the first NUL |
| CStrings.Decimal | main.c:64 | the `%d` text of a natural number is a non-empty run of decimal digits |
| CStrings.DecimalRoundTrip | main.c:64 | reading back the `%d` text of `n` gives `n` |
| UrlCodec.HexValue | domoserver.c:68 | a hexadecimal digit's value lies in 0..15 |
| UrlCodec.Strtol16Pair | domoserver.c:68 | `strtol(base 16)` on the two characters after `%`: two hex digits give 16a+b; a hex digit followed by anything else gives that digit (also "0x"); a leading space or `+` is skipped; a leading `-` negates; otherwise 0 |
| UrlCodec.ByteOf | domoserver.c:69 | the `(char)` cast keeps the value modulo 256 |
| UrlCodec.Decoded | domoserver.c:62-78 | the decoded text is never longer than the input |
| UrlCodec.DecodedAt | domoserver.c:64-76 | one loop step at position i: what the decoding of `src[i..]` emits and where it continues |
| UrlCodec.UrlDecode | domoserver.c:62-78 | the decoding loop produces exactly `Decoded(src)`, never longer than `src` |
| UrlCodec.DecodeStep | domoserver.c:72-75 | `+` becomes a space; any character other than `%` and `+` is copied, and decoding goes on with the rest |
| UrlCodec.DecodeHexPair | domoserver.c:65-70 | `%XY` with two hex digits becomes the byte 16X+Y, and the three characters are consumed |
| UrlCodec.DecodeTruncatedPercent | domoserver.c:71 | a `%` with fewer than two characters after it is dropped, and the rest is decoded |
| UrlCodec.PlainTextUnchanged | domoserver.c:62-78 | text without `%` or `+` decodes to itself |
| UrlCodec.DecodeEncoded | domoserver.c:62-78 | decoding undoes percent-encoding (unreserved characters of section 2.3 of RFC 3986 kept, every other byte as `%XY`) for any byte string |
| Query.Tokens | domoserver.c:412-420 | `strtok(…, "&")`: every token is non-empty and holds no `&` |
| Query.TokensOfJoin | domoserver.c:412-420 | tokenising tokens joined with `&` gives back exactly those tokens |
| Query.ParamsStep | domoserver.c:414-419 | one more token replaces the output whose key it starts with (`nom=`, `etat=` or `type=`, tested in that order), or changes nothing |
| Query.KeysExclusive | domoserver.c:414-419 | a token starts with at most one of the three keys |
| Query.ExtractQuery | domoserver.c:402-424 | the result equals `QueryParams(path)`; a target without `?` gives three empty outputs |
| Query.LastOccurrenceWins | domoserver.c:413-421 | for a repeated key, the output is the decoded value of the last token carrying it |
| Query.MissingKeyIsEmpty | domoserver.c:403 | a key that no token carries leaves its output empty |
| Query.OtherTokenIgnored | domoserver.c:413-421 | removing a token that does not carry the key, wherever it stands, does not change that key's output |
| Query.QueryOfJoinedTokens | domoserver.c:402-424 | for `prefix?t1&…&tn` with no `?` in the prefix and a query that fits the 511-character copy, the outputs are those of the tokens t1…tn |
| Registry.DeviceTable.GetDetails | domoserver.c:157-182 | an unknown device gets `192.168.56.1`, `00000000`, port 60396, `OFF`; a known one gets its row, with each NULL text column replaced by that fallback, and its stored port |
| Registry.DeviceTable.GetEtat | domoserver.c:185-190 | the stored state, `OFF` for an unknown device |
| Registry.DeviceTable.MajEtat | domoserver.c:193-224 | the new table is `TransitionAsWritten(old rows, nom, etat, now)`; when neither the name nor the state holds an apostrophe, that is the intended `Transition` |
| Registry.DeviceTable.ResetDB | domoserver.c:149-154 | the table becomes empty |
| Registry.DeviceTable.InsertInitialDevices | domoserver.c:388-394 | the new table is the INSERT OR IGNORE, in order, of every tuple whose SQL text parses. It then holds the name of every apostrophe-free tuple and keeps every existing row as it was; for a catalog without apostrophes it is the intended `Seeded` |
| Registry.UnknownDeviceDefaults | domoserver.c:161-165 | a device without a row reads as OFF at the fallback address, with the all-zero input code |
| Registry.ExistingDeviceTransition | domoserver.c:209-221 | on a known device the state becomes the request and the time stamp moves; compteur_on rises by one iff the request is ON and the old state was not, compteur_off likewise for OFF; address, input and port are kept |
| Registry.AtMostOneCounterMoves | domoserver.c:211-214 | one update moves at most one counter, by at most one |
| Registry.SameStateKeepsCounters | domoserver.c:209 | re-requesting the current state moves no counter and adds no row |
| Registry.FirstActivation | domoserver.c:198-206 | an unknown device switched to anything but OFF gets a row with the default address and input, the schema port 49644 and counters at 0; an ON request then leaves compteur_on at 1 |
| Registry.UnknownDeviceOffIsNoOp | domoserver.c:198 | switching an unknown device OFF changes nothing |
| Registry.OtherDevicesUntouched | domoserver.c:193-224 | no row is removed, only `nom` can be added, and every other row is unchanged |
| Registry.ReadBackRequestedState | domoserver.c:193-224 | after majEtat, getEtat returns the requested state |
| Registry.TransitionCountersGrow | domoserver.c:211-214 | one update never lowers a counter and never removes a row |
| Registry.CountersNeverDecrease | domoserver.c:211-214 | across any sequence of updates, no row disappears and no counter goes down |
| Registry.SeededKeys | domoserver.c:389-394 | seeding adds exactly the catalog's names to the table's keys |
| Registry.SeedingKeepsRows | domoserver.c:391 | INSERT OR IGNORE never overwrites an existing row |
| Registry.SeedingPresentIsNoOp | domoserver.c:391 | a table that already holds every catalog name is left unchanged |
| Registry.SeedingIdempotent | domoserver.c:389-394 | seeding twice equals seeding once, whatever the clock says |
| Registry.SeededFirstOccurrence | domoserver.c:389-394 | a name first seen at tuple i, and absent before, gets that tuple's values with counters at 0 |
| Registry.ResetThenSeed | domoserver.c:552-554 | after reset and seeding, the table holds exactly the catalog's names, each with its tuple's values |
| Registry.SafeEntries | domoserver.c:390-393 | a tuple is kept iff it is in the catalog and none of its quoted values holds an apostrophe |
| Registry.SafeEntriesOfSafeCatalog | domoserver.c:389-394 | a catalog without apostrophes loses no tuple |
| Registry.SafeSeedingStep | domoserver.c:389-394 | one turn of the seeding loop as written: an apostrophe-free tuple whose name is absent is inserted, any other tuple changes nothing |
| Registry.SafeCatalogAsWritten | domoserver.c:388-394 | for a catalog without apostrophes, the seeding as written equals the intended seeding |
| Registry.SafeSeedingKeys | domoserver.c:388-394 | as written, seeding adds exactly the names of the apostrophe-free tuples, so every such tuple's name is present |
| Registry.SeededAsWrittenFacts | domoserver.c:388-394 | as written, seeding keeps every existing row, adds every apostrophe-free tuple's name, and equals the intended seeding for a catalog without apostrophes |
| Registry.SafeTransitionAsWritten | domoserver.c:198-224 | for a device that has a row, or a name and state without apostrophes, the update as written equals the intended transition |
| Registry.AsWrittenCountersGrow | domoserver.c:211-214 | the update as written never removes a row or lowers a counter either |
| Registry.AsWrittenSkipsApostrophe | domoserver.c:390-393 | as written, a tuple whose name holds an apostrophe is absent after reset and seeding |
| Registry.ApostropheDeviceLost | domoserver.c:246 | the catalog's "Terrasse - Hublot cuisine d'été" is lost by the seeding as written but present, with its tuple's values, as intended; an update cannot create it as written, but can as intended |
| Forwarder.Resolve | domoserver.c:30-31 | an empty IP falls back to `192.168.56.1` and a port that is not positive falls back to 60396; the result always has a non-empty IP and a positive port |
| Forwarder.WireMessage | domoserver.c:48-50 | the command is `type:input:etat`, kept whole when it has at most 255 characters, and otherwise cut to its first 255 |
| Forwarder.Forward | domoserver.c:23-57 | the command goes to the resolved endpoint; it is sent iff the connection succeeds, and the sent text is the wire message |
| Forwarder.CommandRoundTrip | domoserver.c:50 | a command that fits, with no `:` in the type or the input code, splits back into its three fields |
| Router.SkipSpaces | domoserver.c:495 | `%s` skips the leading white space and keeps the rest |
| Router.WordLength | domoserver.c:495 | a `%Ns` conversion takes at most N characters, none of them white space |
| Router.ScanWordOf | domoserver.c:495 | a word that fits the width, followed by white space or the end, is read exactly, with or without a leading space |
| Router.RequestLineWords | domoserver.c:494-495 | a request line `METHOD TARGET…` whose words fit 15 and 1023 characters is read as those two words |
| Router.OtherRoutesAreNotUpdates | domoserver.c:499-552 | no literal path of the chain starts with `/update` |
| Router.RouteOf | domoserver.c:498-559 | a page is served iff the method is GET and the path is one of the ten page paths, and then it is that path's file; the update route is taken iff GET and the path starts with `/update`; /state and /reset-db iff GET and an exact match; the 404 page iff the method is not GET or the path matches none of these |
| Router.StateBodyShowsStates | domoserver.c:539-545 | for every table, the /state body is `lumiere=…;volets=…;clim=…`, each part the device's stored state, or OFF when it has no row or a NULL state |
| Router.SplitThreeFields | domoserver.c:545 | three fields joined by `;`, the first two without `;`, split back into those fields |
| Router.StateBodyRoundTrip | domoserver.c:539-545 | when no stored state holds `;`, the /state body splits back into the three `device=state` fields |
| Router.Handle | domoserver.c:494-559 | per route: a page or 404 changes nothing; /state reports the three states; /reset-db leaves the empty table seeded as written; an update with a missing parameter answers 400 and changes nothing; otherwise the table takes the transition as written, the command is forwarded with the details read before it, and the answer is 200 OK |
| Router.SeedTestDevices | domoserver.c:380-383 | seeding an empty table with the three test devices gives exactly their three rows |
| Router.LumiereFirstOn | domoserver.c:209-212 | the first ON request on the seeded lumiere sets it ON with compteur_on 1, and /state then shows `lumiere=ON;volets=OFF;clim=OFF` |
| Router.LumiereCommand | domoserver.c:522-528 | the command for the seeded lumiere is `light:00000000:ON`, sent to `192.168.56.1` on port 49644 |
| Router.RepeatedOnKeepsCount | domoserver.c:209-212 | an ON request on a device that is already ON leaves both counters as they were |
| Router.LumiereScenario | domoserver.c:511-545 | switching the seeded lumiere ON sets compteur_on to 1, forwards "light:00000000:ON" to the default IP on port 49644, and /state shows it ON; a repeated ON leaves the counter at 1 |
| Legacy.LegacyTable.GetEtat | main.c:12-24 | the stored state, `OFF` for an unknown device |
| Legacy.LegacyTable.MajEtat | main.c:27-52 | the new table is `Transition(old rows, nom, etat, now)` |
| Legacy.LegacyTable.GetMessagePrediction | main.c:55-69 | the alert is non-empty iff the row exists and compteur_off is at least 5; it then names the device and gives the count in decimal |
| Legacy.LegacyTable.ResetCompteur | main.c:72-80 | the new table is `CountersReset(old rows, nom)` |
| Legacy.LegacyTable.InitDB | main.c:102-108 | the new table is the three INSERT OR IGNORE of lumiere, volets and clim |
| Legacy.LegacyTable.HandleRequest | main.c:145-174 | a request containing `favicon.ico` changes nothing and gets no page; otherwise every action whose pattern occurs runs, in source order, and the page shows the resulting states and alerts |
| Legacy.MentionsNameAndCount | main.c:64 | the alert text contains the device name and its count in decimal |
| Legacy.CounterRule | main.c:29-41 | on a known device the state becomes the request and the time stamp moves; compteur_on rises by one iff the request is ON and the old state was not, compteur_off likewise for OFF |
| Legacy.UnknownDeviceUnchanged | main.c:36-40 | majEtat never creates a row |
| Legacy.ResetTouchesOnlyCounters | main.c:73 | resetCompteur zeroes both counters of the device and changes nothing else: not its state, not its time stamp, not other rows |
| Legacy.PredictionThreshold | main.c:61-65 | the alert is non-empty iff the row exists and compteur_off is at least 5 |
| Legacy.SeedingKeepsRows | main.c:102-108 | seeding adds exactly the missing test devices, OFF with counters at 0, never overwrites a row, and a second seeding changes nothing |
| Legacy.DispatchAppend | main.c:152-162 | running one run of pattern tests after another equals running their concatenation |
| Legacy.SetsBeforeResets | main.c:151-162 | every ON/OFF test comes before every reset test, so resets act on the switched rows |
| Legacy.OtherDevicesUntouched | main.c:152-162 | actions on other devices leave a device's row, and whether it exists, unchanged |
| Legacy.DispatchOne | main.c:152 | one test runs its action iff the pattern occurs in the request |
| Legacy.LumiereSwitchedOn | main.c:152-157 | `lumiere=on` without `lumiere=off` switches an existing lumiere row ON, by the counter rule |
| Legacy.LumiereCountersReset | main.c:160-162 | `lumiere=reset` zeroes lumiere's counters and keeps the rest of its row |
| Legacy.OnThenReset | main.c:149-162 | a request holding `lumiere=on` and `lumiere=reset`, but not `lumiere=off`, leaves lumiere ON with both counters at 0 |

## Left out

- Sockets, WinSock start-up, `accept`/`recv`/`send`, and the HTTP response headers are not modelled. A reply is a value (`Router.Reply`, `Legacy.View`); the simulator's `connect()` outcome is the parameter `reachable`.
- A `recv` that returns 0 or fails (domoserver.c:488-492) just closes the connection; `Router.Handle` starts from the bytes received.
- `send_file_response`, `send_404_response` and the file reads are not modelled. That includes the `<body` injection of an extra message and main.c's `login.html` placeholder substitution and its 500 page. A page route is modelled as the name of the file it would serve.
- SQLite is not modelled: no failed `prepare`/`step`, no busy time-out, no `CREATE TABLE`. Table creation (`initDB` in domoserver.c) has no effect on a map; the schema default port 49644 is `Registry.SCHEMA_PORT`. The `id` column and its AUTOINCREMENT counter are not modelled.
- `CURRENT_TIMESTAMP` is the parameter `now`.
- Logging (`printf`/`fprintf`) is not modelled.
- Most C buffer widths are not modelled: the `char[16]`/`char[9]`/`char[32]` copies of IP, input code and state made with `strncpy`, the 128-byte outputs of `url_decode`, main.c's `char[8]` state and 128-byte alert buffers, the 2048-byte buffers, and the SQL text buffers `sql_insert[256]` (domoserver.c:201) and `sql[512]` (domoserver.c:388). So the model does not capture that in majEtat a name plus state longer than 146 bytes truncates the INSERT text, and then no row is created. Values are taken whole. The widths that are modelled are: the 15/1023 limits of `sscanf`, the 511-character copy of the query string, and the 255-character command.
- `Registry.Row.port`: `sqlite3_column_int` of a NULL or non-numeric port reads 0. The model stores the port as an integer, and `Forwarder.Resolve` then falls back to 60396 just as the C does.
- Registry.SeededAsWritten, Registry.TransitionAsWritten: a statement built as SQL text is taken to fail whenever a quoted value holds an apostrophe. Text that still parses although it holds apostrophes (a doubled `''`, or crafted SQL injected through a device name) is not modelled: such text could run arbitrary statements.
- `Registry.DeviceTable.InsertInitialDevices` takes the 147-tuple catalog (domoserver.c:231-383) as a parameter rather than spelling out every tuple. The one tuple the findings depend on is `Registry.APOSTROPHE_ENTRY`; the three test tuples are `Router.TEST_DEVICES`.
- Strings are sequences of characters. A byte produced by `url_decode` is a character below 256; UTF-8 in names is not decoded.

## Findings

| source | as written | input that shows it | evidently intended | confidence | as-written member | corrected member |
|---|---|---|---|---|---|---|
| domoserver.c:246, 388-394 | each catalog tuple is pasted between single quotes into an `INSERT` statement, so a name with an apostrophe gives SQL that does not parse, and `sqlite3_exec` inserts nothing | the catalog's own tuple "Terrasse - Hublot cuisine d'été" after `/reset-db` | every catalog device is present after seeding (bound parameters, or a doubled quote) | not executed | Registry.SeededAsWritten (shown by Registry.ApostropheDeviceLost) | Registry.Seeded (Registry.ResetThenSeed) |
| domoserver.c:198-205 | majEtat's lazy insert pastes the name and state into SQL text the same way | `/update?nom=Terrasse%20-%20Hublot%20cuisine%20d'%C3%A9t%C3%A9&etat=ON&type=light` on a table without that row | the unknown device is created and switched ON | not executed | Registry.TransitionAsWritten (shown by Registry.ApostropheDeviceLost) | Registry.Transition (Registry.FirstActivation) |
