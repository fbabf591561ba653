# StaySync front end and scrapers — a Dafny model

StaySync is a hotel-reservation desk: a React front end that shows the
reservations of one hotel on a room grid, and an Electron main process that
drives a Chrome instance through Puppeteer to scrape the hotel's reservations
from online travel agencies (OTAs: Agoda, GoodMotel and others) and send them
to the StaySync server. This project models the logic of that system as
immutable datatypes and total functions, and proves what each piece promises.

What is modelled, one module per part of the program:

- **Price and status reading.** `Price` models both `extractPrice` variants
  (the shared one in `src/utils/extractPrice.js` and the invoice's own copy):
  the `판매가` label, then the `KRW` label, then the "Agoda Collect" default,
  then the largest digit-and-comma run. `Status` models `isCancelledStatus`.
  `Display` models `getPriceForDisplay`, and `RoomTypes` models
  `matchRoomType`, the first-alias substring match against the hotel's room
  catalog.
- **The Agoda adapter's pure parts** (`Agoda`). These are the script-aware
  word matcher (two Hangul characters, three otherwise), the synonym table,
  the scoring and earliest-best choice of `findBestMatchingRoomType`, the
  parsing of a table row's status marker, and the price assigned from the
  catalog.
- **The GoodMotel adapter** (`GoodMotel`). This covers the splitting of a row
  into fields, de-duplication by reservation number, the date-window warning
  that drops nothing, and the send-or-skip flow. Timeouts and failures are
  parameters. `Tabs` models the tab reuse of `findOrCreatePage`.
- **Scrape orchestration.** `ScraperManager` is the state machine
  {browser, initialized, jobs} with `initialize`, `ensureBrowser`,
  `scrapeNow`, `autoScrape` and `stopAll`. `Schedule` states the four cron
  patterns as predicates on (hour, minute). `Ipc` models the `main.mjs`
  handlers for scrape-now, ensure-browser and the token store. `Otas`
  models the OTA toggle of the app.
- **Reservation arithmetic.** `Reservations` models `calculatePerNightPrice`
  and `processReservation`: nights, nightly rates and totals. `Sales` models
  the day filter, the daily and monthly totals and the search. `RoomGrid`
  covers the price recalculation on edits, the button permission table with
  auto-confirmation, the card order with `Grouping`, the display numbers and
  the border colour. `Invoice` models `processRoomInfo` and the invoice total.
- **Forms and small UI state machines.** `HotelSettings` (room-type editing
  and save validation), `GuestForm`, `EditReservation`, `Login` (the
  failed-attempt counter and lockout), `ScrapeButton` (scraping and
  cooldown), `PasswordReset` (the password and e-mail regular expressions as
  predicates, matched by one-pass scans), and `Registration` (hotel-id prompt
  and sign-up).
- **JavaScript built-ins the code relies on.** `Js` covers truthiness, `||`,
  `parseInt`, `Number`, number-to-text and floor/ceil division. `Text` covers
  `trim`, `toLowerCase`, `includes` and `split`/`join`. `Sorting` is a stable
  sort. `Maybe` holds `Option` and `Result`.

Conventions:

- Time is a whole number of minutes, and day `d` starts at minute `d * 1440`.
- Date parsing and formatting are functions supplied by the caller.
- Everything that talks to the outside world is a parameter of the operation
  that uses it: the browser, the page, the server, the preload bridge.
  Examples are a scrape outcome, a login response, or whether a probe throws.
- Numbers are integers, and `NaN` is a separate value of `Js.Num`.

## Model

| member | source | states |
|---|---|---|
| Agoda.PrefixLength | scrapers/otas/agoda.js:28-36 | words are compared on exactly two leading characters when the scraped word is Korean and on exactly three otherwise |
| Agoda.PartialLangMatch | scrapers/otas/agoda.js:8-37 | two words match directly exactly when their first characters are of the same script (precomposed Hangul or not) and both start with the same two (Korean) or three (other) characters |
| Agoda.PartialLangMatchSymmetric | scrapers/otas/agoda.js:22-37 | the direct match does not depend on which word is the scraped one |
| Agoda.PartialLangMatchTransitive | scrapers/otas/agoda.js:22-37 | the direct match is transitive, so it sorts words into classes by their leading characters |
| Agoda.SomeVariant | scrapers/otas/agoda.js:42-45 | true exactly when some variant of the group matches the word directly |
| Agoda.SynonymLoop | scrapers/otas/agoda.js:40-50 | the loop returns true exactly when some group has a variant matching each of the two words |
| Agoda.PartialSynonymMatch | scrapers/otas/agoda.js:14-51 | the synonym match holds exactly when one of the double/twin/hinoki groups has variants matching both words |
| Agoda.PartialMatchSymmetric | scrapers/otas/agoda.js:53-58 | the combined direct-or-synonym match does not depend on argument order |
| Agoda.SynonymBridgesScripts | scrapers/otas/agoda.js:14-58 | "double" and "더블룸" match through the synonym table although they do not match directly |
| Agoda.NonEmptyFilters | scrapers/otas/agoda.js:77 | the split keeps exactly the non-empty words, each as often and in the order it occurs |
| Agoda.MatchesSome | scrapers/otas/agoda.js:80 | true exactly when some room-type word partially matches the word |
| Agoda.MatchedWordsFilters | scrapers/otas/agoda.js:79-82 | the matched words are exactly the scraped words that partially match some room-type word, in order |
| Agoda.SubstringMatchesFilters | scrapers/otas/agoda.js:85-90 | the verbatim matches are exactly the non-empty room-type words that occur in the lowered scraped name, in order |
| Agoda.ScoreCounts | scrapers/otas/agoda.js:63-90 | the score counts the scraped words that match some room-type word and, only when that count is below two, adds the number of room-type words found verbatim in the name |
| Agoda.ScoreZero | scrapers/otas/agoda.js:63-90 | an entry scores 0 exactly when no scraped word matches any of its words and none of its words occurs in the name |
| Agoda.Scores | scrapers/otas/agoda.js:66-97 | one score per catalog entry, in catalog order |
| Agoda.SortedFirst | scrapers/otas/agoda.js:99-100 | the entry the descending stable sort puts first is a valid catalog index |
| Agoda.SortedFirstIsEarliestBest | scrapers/otas/agoda.js:99-100 | the first entry after the sort has the highest score and every earlier entry scores strictly less, so ties go to the earliest entry |
| Agoda.FindBestMatchingRoomType | scrapers/otas/agoda.js:60-116 | a missing or empty name gives no match; the matcher throws exactly when the name is non-empty and the catalog empty; a match is the lowered type name of an entry scoring above one, with the highest score, earlier than every entry scoring as high; no match means no entry scores above one |
| Agoda.ScoreAboveOneMatches | scrapers/otas/agoda.js:99-110 | any entry scoring above one guarantees that some room type is returned |
| Agoda.MatchIffSomeScoreAboveOne | scrapers/otas/agoda.js:99-115 | for a non-empty name the matcher returns a room type exactly when some catalog entry scores above one |
| Agoda.StatusAndNumber | scrapers/otas/agoda.js:254-268 | the status is "Canceled" exactly when the first cell mentions the cancelled marker, else "Confirmed"; without either marker the number is the cell unchanged |
| Agoda.MarkerPrefixStripped | scrapers/otas/agoda.js:258-267 | a number written after a status marker comes out as the trimmed rest, without the marker |
| Agoda.CutRoomInfo | scrapers/otas/agoda.js:270-273 | the room description is a prefix of the original of at most 50 characters, unchanged when it already fits |
| Agoda.ParseRow | scrapers/otas/agoda.js:229-285 | a row is dropped exactly when it has fewer than six cells; a kept row takes its number from the first cell after the status marker, its name and payment method from the trimmed second and fifth cells, its room description as the first 50 characters of the trimmed fourth cell, check-in and check-out from their trimmed elements ("" and "11:00" when missing), the check-in as reservation date, and a cancelled status exactly when the first cell carries the cancelled marker |
| Agoda.ParseRows | scrapers/otas/agoda.js:225-287 | no more reservations than rows, each with a room description of at most 50 characters |
| Agoda.ParseRowsKeepsFullRows | scrapers/otas/agoda.js:228-286 | the rows with at least six cells are parsed one for one and in order |
| Agoda.PriceMap | scrapers/otas/agoda.js:161-165 | the price map's keys are exactly the lowered type names of the catalog |
| Agoda.PriceMapLastWins | scrapers/otas/agoda.js:161-165 | a lowered type name maps to the price of its last entry in the catalog |
| Agoda.MatchOf | scrapers/otas/agoda.js:302-315 | a reservation gets a room type exactly when its description is not blank and some catalog entry scores above one for it; the type is the matcher's answer and a key of the price map |
| Agoda.AssignPrice | scrapers/otas/agoda.js:297-345 | the reservation is kept; the matched type is recorded exactly when the matcher picks a non-empty one, and then the price is its mapped price when positive and the default 100000 otherwise; without a recorded type the price is the default |
| Agoda.AssignPrices | scrapers/otas/agoda.js:298-357 | every scraped reservation is priced, one for one and in order |
| Agoda.MatchedEntryPrice | scrapers/otas/agoda.js:320-327 | with distinct lowered type names, a reservation matched to a named entry with a positive price gets exactly that entry's price and type |
| Agoda.EmptyTypeKeepsDefault | scrapers/otas/agoda.js:314-345 | a match on an entry whose type name is empty counts as no match: the default price and no recorded type |
| Display.PriceSource | src/utils/getPriceForDisplay.js:15-17 | the price text is read from `priceString` when that is truthy and from `price` otherwise |
| Display.GetPriceForDisplay | src/utils/getPriceForDisplay.js:12-37 | a null reservation shows 0 without suffix; the "(기본값)" suffix appears exactly when the extracted price is flagged default, and then the amount is 100000; otherwise a non-positive extracted price is replaced by the matched room type's price (0 when none matches) and any other price, `NaN` included, is shown as extracted |
| Display.PriceStringPreferred | src/utils/getPriceForDisplay.js:15-17 | with a truthy `priceString` the `price` field has no influence on what is shown |
| Display.CatalogOnlyForNonPositive | src/utils/getPriceForDisplay.js:28-32 | the room catalog matters only when the extracted price is not positive |
| Display.NonPositiveAmountFromCatalog | src/utils/getPriceForDisplay.js:28-32 | a shown amount that is not positive is the matched room type's price or 0 |
| EditReservation.OpenForm | src/components/EditReservationModal.js:17-25 | each field opens with the reservation's value when truthy and `''` otherwise; the payment method is never empty, defaulting to "Pending" |
| EditReservation.ParseIntValue | src/components/EditReservationModal.js:51 | `parseInt(v, 10)` reads a text value's leading integer and gives back a number value unchanged |
| EditReservation.Overwrite | src/components/EditReservationModal.js:58-67 | the spread keeps every key of both objects; the edited fields take their new values and all other fields keep the reservation's |
| EditReservation.OverwriteSame | src/components/EditReservationModal.js:58-67 | overwriting fields with the values they already hold gives back the reservation |
| EditReservation.EditsOf | src/components/EditReservationModal.js:58-67 | the update holds exactly the seven edited fields, with the reformatted dates and every other field as entered |
| EditReservation.HandleSubmit | src/components/EditReservationModal.js:32-71 | the save goes ahead exactly when name and both dates are filled in, both dates parse with check-out strictly later, and the price reads as a non-negative integer; the checks are made in that order with their own messages; the saved reservation keeps every other field, holds the reformatted dates and stores the price text as entered |
| EditReservation.PriceSavedAsEntered | src/components/EditReservationModal.js:51-64 | the price check reads only the leading integer, so "12abc" is accepted and saved as "12abc" |
| EditReservation.SubmitUnchangedKeepsReservation | src/components/EditReservationModal.js:17-70 | submitting the dialog as it opened, for a reservation already in saved form, saves the reservation unchanged |
| GoodMotel.NameAndPhoneRaw | electron/scrapers/otas/goodMotel.js:129-131 | an empty text gives two empty parts; otherwise the name is the trimmed text before the first `\|`, and without a `\|` the phone part is empty |
| GoodMotel.PhoneOf | electron/scrapers/otas/goodMotel.js:133-135 | the phone number is the first line of the phone part, trimmed, whatever follows the first line break; a one-line phone part is simply trimmed |
| GoodMotel.FirstStamp | electron/scrapers/otas/goodMotel.js:145-149 | the stay pattern `\d{4}-\d{2}-\d{2} \d{2}:\d{2} ~ …` matches at the index found and nowhere before it, and a failed search means it matches nowhere |
| GoodMotel.StayOf | electron/scrapers/otas/goodMotel.js:145-155 | without a match both check-in and check-out are empty |
| GoodMotel.StampHasOneTilde | electron/scrapers/otas/goodMotel.js:150-155 | a matched stay text has exactly one `~`, so splitting on it gives exactly the two sides |
| GoodMotel.StayIsTheTwoStamps | electron/scrapers/otas/goodMotel.js:145-155 | check-in and check-out are exactly the two 16-character date-and-time texts of the leftmost match |
| GoodMotel.TrimStampSides | electron/scrapers/otas/goodMotel.js:150-155 | trimming each side of the `~` removes exactly the one space next to it |
| GoodMotel.StampEnds | electron/scrapers/otas/goodMotel.js:147 | a match starts and ends each date-and-time with a digit and puts a space on each side of the `~` |
| GoodMotel.RoomInfoOf | electron/scrapers/otas/goodMotel.js:169 | without a `-` the room description is the whole text; a replaced description is non-empty and has no `-` |
| GoodMotel.TrimInside | electron/scrapers/otas/goodMotel.js:169 | trimming keeps only characters of the original |
| GoodMotel.RoomInfoIsSecondSegment | electron/scrapers/otas/goodMotel.js:169 | the room description is the trimmed text between the first and the second `-`, or the whole text when that segment is blank |
| GoodMotel.ParseRow | electron/scrapers/otas/goodMotel.js:119-175 | status, number and price are the texts of their cells; name and phone come from splitting the information cell's text, the phone cut to its first line; the room description, the stay, and the check-in as reservation date come from the information cell |
| GoodMotel.ParseRows | electron/scrapers/otas/goodMotel.js:118-176 | every row is mapped, one for one and in order |
| GoodMotel.MapSet | electron/scrapers/otas/goodMotel.js:183-185 | `Map.set` keeps keys distinct: an existing key keeps its place and takes the new value, a new key is appended, and no other entry changes |
| GoodMotel.MapOf | electron/scrapers/otas/goodMotel.js:183-185 | the map built from the bookings has distinct keys, each the number of its booking, and no more entries than bookings |
| GoodMotel.Dedup | electron/scrapers/otas/goodMotel.js:183-185 | the unique reservations are the map's values in insertion order |
| GoodMotel.MapOfIsLastOccurrence | electron/scrapers/otas/goodMotel.js:183-185 | each map entry holds the last booking in the input with its number |
| GoodMotel.MapOfKeys | electron/scrapers/otas/goodMotel.js:183-185 | the map's keys are exactly the reservation numbers of the input |
| GoodMotel.MapSetKeys | electron/scrapers/otas/goodMotel.js:183-185 | setting a reservation number in the map adds exactly that key |
| GoodMotel.DedupProperties | electron/scrapers/otas/goodMotel.js:182-185 | after duplicate removal no two bookings share a number, no number is lost, and each kept booking is the last one with its number |
| GoodMotel.ScrapeGoodMotel | electron/scrapers/otas/goodMotel.js:45-228 | the tab list keeps its tabs in place and gains at most one; a tab changes only by being pointed at the history page of the window; unless the table loads and the update succeeds no tab changes; at most one send, of the non-empty de-duplicated rows, never on a scrape that throws, and only once the history page is open |
| GoodMotel.AfterUpdate | electron/scrapers/otas/goodMotel.js:107-212 | once the window is shown nothing throws and no tab changes; the de-duplicated rows are sent exactly when the table loads and they are not empty |
| GoodMotel.RangeCheckOnlyWarns | electron/scrapers/otas/goodMotel.js:190-201 | the date-range check only logs a warning: what is sent and whether the scrape throws do not depend on it |
| GoodMotel.FailuresAndTimeouts | electron/scrapers/otas/goodMotel.js:76-115 | a table wait that times out returns quietly, a failed navigation to the updated page throws, and neither sends |
| GoodMotel.SentIffNonEmpty | electron/scrapers/otas/goodMotel.js:203-211 | when every step succeeds the scrape does not throw, and it sends exactly when duplicate removal leaves at least one reservation |
| Grouping.Having | src/components/RoomGrid.js:575-580 | the elements filed under a key all have that key and come from the input |
| Grouping.HavingSnoc | src/components/RoomGrid.js:578 | pushing an element appends it to its own key's group and to no other |
| Grouping.HavingAbsent | src/components/RoomGrid.js:575-580 | a key that no element has gets no elements |
| Grouping.FlattenConcat | src/components/RoomGrid.js:598 | `flatMap` over two runs of groups is the concatenation of their flattenings |
| Grouping.FlattenReplace | src/components/RoomGrid.js:598 | replacing one group's members changes the flattened multiset by exactly the members replaced |
| Grouping.FlattenPointwise | src/components/RoomGrid.js:583-598 | groups whose members are permuted one by one flatten to a permutation |
| Grouping.WithoutOne | src/components/RoomGrid.js:593-598 | removing one position removes exactly that element from the multiset |
| Grouping.FlattenAround | src/components/RoomGrid.js:598 | the flattening is one group's members plus the flattening of the others |
| Grouping.FlattenPermutation | src/components/RoomGrid.js:593-598 | reordering the groups reorders the flattened sequence and loses nothing |
| Grouping.IndexOfKey | src/components/RoomGrid.js:577 | the lookup `acc[site]` finds a group filed under the key, or reports that none has it |
| Grouping.UncoveredKeyIsAbsent | src/components/RoomGrid.js:575-580 | in a grouping, a key without a group has no elements |
| Grouping.NewKeyFiled | src/components/RoomGrid.js:577-578 | a new key's group holds exactly the new element, and the other groups still hold their keys' elements |
| Grouping.NewKeyCovers | src/components/RoomGrid.js:577-578 | after a new key is opened, every element's key still has a group |
| Grouping.GroupNewKey | src/components/RoomGrid.js:577-578 | an element of a new key opens a group at the end and keeps the grouping correct |
| Grouping.KnownKeyFiled | src/components/RoomGrid.js:578 | an element of a known key joins the end of its group, which then holds its key's elements in input order |
| Grouping.KnownKeyCovers | src/components/RoomGrid.js:578 | after such a push every element's key still has a group |
| Grouping.GroupKnownKey | src/components/RoomGrid.js:578 | an element of a known key keeps the grouping correct |
| Grouping.KnownKeyFlatten | src/components/RoomGrid.js:578 | the groups still hold a permutation of the elements seen |
| Grouping.AddToKeepsGrouping | src/components/RoomGrid.js:575-580 | one `reduce` step keeps the grouping correct |
| Grouping.GroupBy | src/components/RoomGrid.js:575-580 | the `reduce` gives groups with distinct keys, each holding exactly its key's elements in input order; every element's key has a group, and together the groups hold exactly the input |
| Grouping.AddToKeepsFirstSeenOrder | src/components/RoomGrid.js:578 | one `reduce` step keeps the groups ordered by where their keys first appear: a push to a known key changes no key, and a new key's group goes last |
| Grouping.GroupByFirstSeenOrder | src/components/RoomGrid.js:575-580 | the groups come out in the order their keys first appear in the input, which is the insertion order of the object's entries, and every group's key does appear |
| RoomGrid.CalcNights | src/components/RoomGrid.js:284-290 | `NaN` exactly when a date is invalid; otherwise the smallest whole number of days that covers the stay, negative for a reversed stay |
| RoomGrid.FindByType | src/components/RoomGrid.js:297 | the room found is the first whose type equals the room information exactly; none is found only when no type equals it |
| RoomGrid.NightlyOf | src/components/RoomGrid.js:297-298 | the nightly price is the found room's price, or 0 when no room type matches |
| RoomGrid.RecalcPrice | src/components/RoomGrid.js:293-304 | with a missing date or room the entered price (or 0) is kept; invalid dates give "NaN"; a stay of no positive length gives 0; otherwise the price is text that reads as the nightly price times the nights |
| RoomGrid.HandleFieldChange | src/components/RoomGrid.js:306-327 | only the edited reservation's record changes; it gains the entered field, and a date or room change also sets the recomputed price; every other field is kept |
| RoomGrid.EditedStayPrice | src/components/RoomGrid.js:284-304 | for valid dates, a reversed or empty stay costs 0 and a forward stay costs the nightly price times its days rounded up, at least one |
| RoomGrid.SevenPm | src/components/RoomGrid.js:391-402 | the cut-off falls on the check-in's calendar day at 19:00 |
| RoomGrid.ActionsOf | src/components/RoomGrid.js:371-444 | a card is confirmed when its status says so or it is auto-confirmed; OTA cards are never edited or confirmed here and can be deleted when cancelled or unconfirmed; on-site cards can be deleted when cancelled or unconfirmed, confirmed when neither, and edited unless frozen; other sites show no buttons; a frozen card loses delete and edit |
| RoomGrid.AutoConfirmationScope | src/components/RoomGrid.js:404-411 | auto-confirmation applies only to cards that are neither cancelled nor explicitly confirmed and that have a check-in date |
| RoomGrid.ConfirmationPersists | src/components/RoomGrid.js:389-444 | as time passes, a confirmed card stays confirmed and a frozen card stays frozen |
| RoomGrid.OtaDeleteWindow | src/components/RoomGrid.js:404-444 | an open OTA booking can be deleted exactly until 19:00 on its check-in day, and not once a stay of at most a day has passed its check-in |
| RoomGrid.ShortStayPastCheckInIsFrozen | src/components/RoomGrid.js:404-444 | an uncancelled stay of at most a day whose check-in has passed shows as confirmed and offers no button |
| RoomGrid.SiteKey | src/components/RoomGrid.js:576 | a reservation without a site is filed under "정보 없음", so the key is never empty |
| RoomGrid.DayDifference | src/components/RoomGrid.js:543-555 | the calendar-day difference is a number exactly when both dates are valid |
| RoomGrid.Category | src/components/RoomGrid.js:558-572 | category 1 exactly for a same-day stay, 2 exactly for a one-day "대실" stay, 3 otherwise |
| RoomGrid.OfSite | src/components/RoomGrid.js:575-580 | the reservations of one site all carry that site's key |
| RoomGrid.SortOnSite | src/components/RoomGrid.js:582-590 | only the "현장예약" group is reordered, stably by category; every group keeps its key and its members |
| RoomGrid.OnSiteKeepsCategoryOrder | src/components/RoomGrid.js:582-590 | the "현장예약" reservations of any one category keep their input order |
| RoomGrid.LayoutGroups | src/components/RoomGrid.js:574-595 | the site groups are ordered by ascending size; together they hold exactly the input reservations; each group holds its site's reservations in input order, the on-site one sorted by category; every site has a group |
| RoomGrid.LayoutKeepsGroups | src/components/RoomGrid.js:592-595 | sorting the groups by size moves them but changes no group's contents |
| RoomGrid.EqualSizedGroupsKeepOrder | src/components/RoomGrid.js:592-595 | groups of equal size keep their relative order |
| RoomGrid.Reverse | src/components/RoomGrid.js:601 | the reversal puts element k at position length-1-k |
| RoomGrid.ReverseKeepsElements | src/components/RoomGrid.js:601 | reversing keeps every element |
| RoomGrid.SortedReservations | src/components/RoomGrid.js:574-601 | the cards are exactly the input reservations, laid out as the size-ordered groups flattened and then reversed |
| RoomGrid.DisplayNumbers | src/components/RoomGrid.js:762-764 | card i carries the number of cards minus i |
| RoomGrid.DisplayNumbersCountDown | src/components/RoomGrid.js:762-764 | the numbers strictly decrease from the number of cards down to 1, each used exactly once |
| RoomGrid.BorderColor | src/components/RoomGrid.js:1045-1096 | invalid dates give no border; a "대실" mention gives soft green; otherwise same day is soft green, one day coral, two or more deep blue, and a reversed stay none |
| RoomGrid.BorderFollowsCategory | src/components/RoomGrid.js:558-572 | same-day and day-use stays (categories 1 and 2) get the soft-green border, and coral or deep-blue borders only go to category 3 |
| Invoice.RemoveGroups | src/components/InvoiceTemplate.js:59 | after removing the parenthesised groups no `(` is followed by a `)`; every character left is a space or comes from the input; text without a group is unchanged |
| Invoice.RemoveGroupsKeeps | src/components/InvoiceTemplate.js:59 | text before the first `(` is kept as it is |
| Invoice.RemoveGroupsGroup | src/components/InvoiceTemplate.js:59 | a group `(…)` without a `)` inside becomes two spaces and removal goes on after it |
| Invoice.Collapse | src/components/InvoiceTemplate.js:66 | every whitespace run becomes one plain space: the result is empty only for empty input, starts like the input, keeps only spaces and the input's other characters, keeps the input free of groups, and leaves already-collapsed text unchanged |
| Invoice.CollapseRun | src/components/InvoiceTemplate.js:66 | a whole run of whitespace becomes one space in front of the collapsed rest |
| Invoice.CollapseChar | src/components/InvoiceTemplate.js:66 | a non-space character is kept in front of the collapsed rest |
| Invoice.CollapseStep | src/components/InvoiceTemplate.js:66 | a leading run of whitespace becomes one space in front of the collapsed rest |
| Invoice.CollapseKeep | src/components/InvoiceTemplate.js:66 | a leading non-space character is kept in front of the collapsed rest |
| Invoice.NoGroupSlice | src/components/InvoiceTemplate.js:62-63 | cutting a piece out of text without groups leaves none |
| Invoice.CutAtHyphen | src/components/InvoiceTemplate.js:62-64 | after the cut no `-` is left, text without `-` is unchanged, and no group appears |
| Invoice.CutAtFirstHyphen | src/components/InvoiceTemplate.js:62-64 | the text is cut at the first `-` and the part before it trimmed |
| Invoice.ProcessRoomInfo | src/components/InvoiceTemplate.js:55-68 | a falsy description prints "정보 없음"; the printed text is never empty and has no hyphen, no parenthesised group and no whitespace other than single spaces |
| Invoice.TextAfterHyphenDropped | src/components/InvoiceTemplate.js:55-67 | everything from the first `-` on is dropped: the printed text is the collapsed, trimmed part before it, or "정보 없음" when that is empty |
| Invoice.GroupBecomesOneSpace | src/components/InvoiceTemplate.js:55-67 | a group between hyphen-free text is replaced so that the printed text is the surrounding text with whitespace collapsed across the gap |
| Invoice.NoInfoIsClean | src/components/InvoiceTemplate.js:56-67 | the fallback "정보 없음" is itself clean |
| Invoice.CleanRoomInfoUnchanged | src/components/InvoiceTemplate.js:55-68 | a non-empty description without a group, a hyphen or repeated whitespace is printed unchanged |
| Invoice.ProcessRoomInfoIdempotent | src/components/InvoiceTemplate.js:55-68 | processing a printed description again changes nothing |
| Invoice.RateOrZero | src/components/InvoiceTemplate.js:73 | a numeric rate counts as itself and anything else as 0 |
| Invoice.SumNumericRates | src/components/InvoiceTemplate.js:71-75 | the sum is `NaN` exactly when some rate is the number `NaN` |
| Invoice.InvoiceTotal | src/components/InvoiceTemplate.js:71-76 | without nightly rates the total is the price parsed by the invoice's own `extractPrice`; an empty rate list totals 0; with rates the total is `NaN` exactly when a rate is `NaN` |
| Invoice.RateValues | src/components/InvoiceTemplate.js:71-75 | each rate of a processed reservation is read as a number field, one for one |
| Invoice.SumOrders | src/components/InvoiceTemplate.js:71-75 | the invoice's left-to-right sum equals the total the main window builds over the same rates |
| Invoice.SumLast | src/render/App.js:371-417 | the right-to-left sum splits off its last rate |
| Invoice.InvoiceChargesProcessedTotal | src/components/InvoiceTemplate.js:71-76 | for a processed reservation with a stay, the invoice charges exactly the total the main window computed |
| Ipc.HandleScrapeNow | main.mjs:122-140 | a missing or empty list resolves with `{success: false, 'No OTA to scrape.'}` and scrapes nothing; a non-empty list runs the sequential loop over the names and resolves with `{success: true}` exactly when that loop does not throw |
| Ipc.NonEmptyRequestSucceeds | main.mjs:128-139 | with an initialised manager and a healthy browser a non-empty request always resolves with success, even when adapters fail, and invokes the supported names once each in the requested order |
| Ipc.ScrapeAllNeverThrowsWhenHealthy | electron/scrapers/scraperManager.js:91-136 | with a healthy browser the loop over the names never throws |
| Ipc.HandleEnsureBrowser | main.mjs:144-151 | the handler reports success exactly when `ensureBrowser` does not throw, and otherwise returns the error's message |
| Ipc.SetToken | main.mjs:14-17 | storing a token makes it the stored access token |
| Ipc.TokenRoundTrip | main.mjs:14-22 | the token read back is the one stored last |
| ScraperManager.Initialize | electron/scrapers/scraperManager.js:41-82 | throws only when no browser is given and connecting fails, and then changes nothing; otherwise it keeps the given browser or the new connection, marks the manager initialized and appends the four scheduled jobs to those already registered |
| ScraperManager.EnsureBrowser | electron/scrapers/scraperManager.js:91-109 | a connected, live browser is kept without reconnecting; otherwise exactly one connection attempt is made, whose browser replaces the old one, or whose failure is thrown with the manager unchanged; jobs and the initialized flag are never touched |
| ScraperManager.ScrapeNow | electron/scrapers/scraperManager.js:111-137 | does nothing before initialisation or without a browser; throws exactly when the browser check fails; invokes the named adapter exactly when the check passes and the name has an adapter, and never throws because of the adapter |
| ScraperManager.ScrapeAll | main.mjs:134-137 | the sequential loop does nothing for an uninitialised manager and never changes the jobs or the initialized flag |
| ScraperManager.Supported | electron/scrapers/scraperManager.js:23-31 | each name returned has an adapter and was requested, and no more names come back than were requested; that they are exactly the requested names with an adapter, in order, is ScraperManager.SupportedFilters |
| ScraperManager.SupportedFilters | electron/scrapers/scraperManager.js:111-127 | the supported names are exactly the requested names that have an adapter, each as often and in the order requested |
| ScraperManager.ScrapeAllInvokesSupported | electron/scrapers/scraperManager.js:111-136 | when the loop does not throw it has invoked exactly the supported names, once each, in the requested order |
| ScraperManager.ActiveInOrder | electron/scrapers/scraperManager.js:157-167 | the sites an automatic scrape visits are available sites that are active in the settings, and every available active site is among them |
| ScraperManager.AutoScrape | electron/scrapers/scraperManager.js:139-168 | nothing happens before initialisation, without a browser, with scraping switched off, without a stored hotel id, or when the settings have no site list; a failed settings request is thrown; jobs are never touched |
| ScraperManager.AvailableAreSupported | src/render/config/availableOTAs.js:3-13 | every available site has an adapter, so filtering by adapter keeps a list of available sites unchanged |
| ScraperManager.AutoScrapeInvokesActive | electron/scrapers/scraperManager.js:139-168 | an automatic scrape that does not throw invokes exactly the active available sites, in the order of the available list |
| ScraperManager.StopAll | electron/scrapers/scraperManager.js:170-193 | every job is cancelled; the call throws exactly when a browser is open and closing it fails, and then the browser and the initialized flag are kept; otherwise the manager is back in its freshly constructed state |
| ScraperManager.NothingRunsAfterStop | electron/scrapers/scraperManager.js:170-193 | after a successful stop no job fires at any minute, and neither a manual nor an automatic scrape does anything |
| ScraperManager.InitializeOnceFiresAtMostOnce | electron/scrapers/scraperManager.js:41-82 | a manager initialized once starts at most one automatic scrape in any minute of the day; initializing it a second time registers all four patterns again, eight jobs in all |
| Schedule.Firings | electron/scrapers/scraperManager.js:54-81 | the number of jobs that fire at a minute is at most the number of jobs, and positive exactly when some job's hour and minute fields both match |
| Schedule.HoursDisjoint | electron/scrapers/scraperManager.js:55-78 | no hour of the day belongs to two of the four patterns |
| Schedule.RegisteredFiring | electron/scrapers/scraperManager.js:54-81 | with the four registered jobs at most one scrape starts per minute: none from 03:00 to 06:59; one on the hour at every other hour; one at half past exactly from 15 to 19 o'clock; none at any other minute |
| Schedule.FiringsOfRegistered | electron/scrapers/scraperManager.js:54-81 | the count for the registered jobs is the sum of one indicator per job |
| Otas.AllOff | src/render/App.js:94-96 | the initial switches have exactly the available sites as keys, and every switch is off |
| Otas.Toggle | src/render/App.js:648-656 | an unsupported site leaves the switches as they were; a supported site's switch is flipped, and every other site's key and switch are kept |
| Otas.RollbackRestores | src/render/App.js:655-682 | with no other change in between, a failed server update restores the site's original switch and a successful one keeps it flipped; other sites' switches are untouched either way |
| Tabs.FindTab | scrapers/otas/agoda.js:124 | finds the first tab from the given position whose URL contains the keyword, and none when no such tab exists |
| Tabs.FindOrCreatePage | scrapers/otas/agoda.js:122-140 | an existing tab with the keyword is reused, the first one, with no new tab and no navigation; otherwise exactly one tab is appended, navigated to the fallback URL when there is one, and the call fails exactly when that navigation fails; existing tabs are never changed |
| Tabs.SecondCallReuses | scrapers/otas/agoda.js:122-140 | when the fallback URL carries the keyword, a second call after a successful one opens no tab and navigates nowhere |
| Price.StripCommas | src/utils/extractPrice.js:22 | removing the commas leaves no comma, keeps only characters of the input and never lengthens it |
| Price.StripCommasFilters | src/utils/extractPrice.js:22 | removing the commas keeps every other character of the input, in order |
| Price.ParseRun | src/utils/extractPrice.js:22-41 | a run of digits and commas reads as a non-negative integer, and as `NaN` exactly when it holds no digit |
| Price.ParseRunValue | src/utils/extractPrice.js:22-23 | a run that reads as a number reads as the decimal value of its digits with the commas removed |
| Price.LabelledAt | src/utils/extractPrice.js:20-27 | a capture at a position exists exactly where the label occurs there and a digit or comma follows after nothing but whitespace; it is then the whole run of digits and commas that follows |
| Price.FindLabelled | src/utils/extractPrice.js:20-27 | the pattern's first match is the capture at the leftmost position where the label pattern matches, and there is none when it matches nowhere |
| Price.Spans | src/utils/extractPrice.js:39 | the global match finds maximal runs of digits and commas, left to right and without overlap |
| Price.SpansCover | src/utils/extractPrice.js:39 | every digit or comma of the string lies inside one of the matched runs |
| Price.Runs | src/utils/extractPrice.js:39-40 | the matched runs are non-empty runs of digits and commas, and there are none exactly when the string has no digit or comma |
| Price.RunsAreMaximalRuns | src/utils/extractPrice.js:39 | every maximal run of digits and commas is one of the matches |
| Price.SameMaximalRun | src/utils/extractPrice.js:39 | two overlapping maximal runs are the same run |
| Price.MaxNum | src/utils/extractPrice.js:42 | `Math.max` is `NaN` as soon as one value is `NaN`, and otherwise an element that no element exceeds |
| Price.RunValues | src/utils/extractPrice.js:41 | each matched run is read on its own, in order |
| Price.ExtractPrice | src/utils/extractPrice.js:3-17 | a missing value or a non-string object gives the default 100000 flagged as default; a number is returned as it is; a default result is always 100000 |
| Price.SaleLabelWins | src/utils/extractPrice.js:19-24 | the leftmost "판매가" match decides the price, with its commas removed, whatever other numbers the string holds |
| Price.KrwLabelSecond | src/utils/extractPrice.js:26-31 | without a "판매가" match, the leftmost "KRW" match decides the price |
| Price.AgodaCollectIsDefault | src/utils/extractPrice.js:33-36 | without a labelled price, "Agoda Collect" in any letter case gives the default even when the string holds digits |
| Price.LargestRunWins | src/utils/extractPrice.js:38-44 | otherwise the price is the value of one maximal run, no maximal run has a larger value, and the result is not the default |
| Price.FallsThroughToRuns | src/utils/extractPrice.js:19-44 | with no label match, no "Agoda Collect" and some digit or comma, the price is the largest run value and not the default |
| Price.MaxRunIsLargest | src/utils/extractPrice.js:39-43 | the largest run value is the value of a maximal run and bounds the value of every maximal run |
| Price.RunValueBounded | src/utils/extractPrice.js:39-43 | no maximal run's value exceeds the largest run value |
| Price.NoDigitsIsDefault | src/utils/extractPrice.js:46-47 | a string with no digit or comma gives the default |
| Price.InvoiceExtractPrice | src/components/InvoiceTemplate.js:30-33 | the invoice's variant gives 0 for a missing value or an object, and a number as it is |
| Price.InvoiceAgreesWithExtractPrice | src/components/InvoiceTemplate.js:30-52 | the two variants agree wherever the shared one reads a price; where it falls back to the default the invoice shows 0, except for "Agoda Collect" strings |
| Price.LoneCommaIsNaN | src/utils/extractPrice.js:39-43 | a lone comma reads as `NaN`, which both variants return as an ordinary price rather than the default |
| Reservations.AddNum | src/render/App.js:419 | a sum is `NaN` exactly when one of its terms is |
| Reservations.AddNumAssoc | src/render/App.js:419 | addition of numbers that may be `NaN` is associative with 0 as identity, so running sums can be regrouped |
| Reservations.PerNightPrice | src/render/App.js:178-192 | with nights the per-night price is the total divided by the nights and rounded down, so nights times it is within one night's remainder of the total; without nights it is the total itself; `NaN` stays `NaN` |
| Reservations.Nights | src/render/App.js:388-394 | the number of nights is the calendar-day difference, and 1 for a stay that begins and ends on the same day |
| Reservations.RatesFrom | src/render/App.js:410-417 | one nightly rate per night, on consecutive days from the check-in day, each at the per-night price |
| Reservations.SumRates | src/render/App.js:419 | the sum of the nightly rates is `NaN` exactly when some rate is |
| Reservations.SumOfUniformRates | src/render/App.js:410-419 | equal rates over n nights add up to n times the rate |
| Reservations.BasePriceIsDisplayed | src/render/App.js:355-398 | the price the stay is spread from is the amount the reservation card displays |
| Reservations.ProcessReservation | src/render/App.js:353-442 | only the number, nightly rates, default flag and total change; the number falls back to the id; the default flag is the extraction's; without a valid stay there are no nightly rates and the total is the displayed amount; with a stay there is one rate per night on consecutive days, each the displayed amount spread over the nights, and the total is their sum |
| Reservations.StayTotalNearBase | src/render/App.js:389-419 | spreading over the nights only drops the remainder: the recomputed total is at most the base price and less than the number of nights below it |
| Reservations.NumberFilledOnce | src/render/App.js:433 | a reservation with an id always ends up with a number, and processing it again keeps that number |
| Sales.ShownList | src/render/App.js:202-248 | the day shows the input reservations filtered by whether their stay covers the day or begins and ends on it, each in input order |
| Sales.FilterByDate | src/render/App.js:195-248 | the filtering fails exactly when some reservation has an invalid date; otherwise it keeps exactly the reservations shown on the day |
| Sales.ShownDays | src/render/App.js:221-232 | a stay over several days is shown from its check-in day up to the day before check-out; a same-day stay on that day only; nothing is shown when check-out precedes check-in |
| Sales.ShownOnRateDays | src/render/App.js:202-248 | a processed reservation with a stay is shown on exactly the days of its nightly rates |
| Sales.DailyAmount | src/render/App.js:253-262 | a reservation without nightly rates adds its total, or 0, and never `NaN` |
| Sales.DailyTotal | src/render/App.js:266-267 | the day's total is `NaN` exactly when some shown reservation's amount is |
| Sales.DailyTotalAppend | src/render/App.js:266 | the day's total of two lists of shown reservations is the sum of their totals |
| Sales.DailyAmountIsPerNight | src/render/App.js:255-256 | a processed reservation with a stay adds its per-night price on each day it is shown |
| Sales.RatesInWindow | src/render/App.js:299-306 | a reservation adds the sum of exactly its nightly rates dated from the month's first midnight up to the selected day |
| Sales.ClampAtZero | src/render/App.js:311 | a positive sum is kept and a sum of at most 0 gives 0; `NaN` stays `NaN` |
| Sales.MonthlyTotal | src/render/App.js:273-312 | the month's total is the clamped sum, over the reservations that count for the month, of their rates inside the window; it is `NaN` or non-negative |
| Sales.MonthlySumFilters | src/render/App.js:273-308 | the month's sum is the window sum over the input filtered by the month's test (not cancelled, valid dates, overlapping the month up to the selected day) |
| Sales.MonthlySumAppend | src/render/App.js:298-308 | the month's sum over two lists is the sum of their sums |
| Sales.CancelledDoesNotCount | src/render/App.js:273-312 | a cancelled reservation, wherever it stands in the list, does not change the month's total |
| Sales.ZeroSingleton | src/render/App.js:273-280 | a cancelled reservation alone contributes 0 to the month |
| Sales.Matching | src/render/App.js:751-764 | the matches are the reservations filtered by whether their name, number or memo contains the lowered term, in input order, the first being the first matching reservation |
| Sales.FirstMatchIndex | src/render/App.js:751-776 | finds the first reservation that matches, and none comes before it |
| Sales.Ids | src/render/App.js:772 | the highlighted ids are the ids of the limited results, in order |
| Sales.ExecuteSearch | src/render/App.js:740-781 | a term under two characters after trimming is rejected; there is no match exactly when no reservation matches the trimmed, lowered term; otherwise one to five ids are highlighted, the first being the first matching reservation's, and the view jumps to its check-in |
| Sales.HighlightOf | src/render/App.js:766-776 | a non-empty list of matches highlights the ids of its first five, in order, and jumps to the first's check-in |
| Sales.SearchHighlightsFirstMatches | src/render/App.js:751-776 | the highlighted ids are those of the first five matches (all, when fewer) in list order, each the id of a matching reservation |
| Sales.SearchIgnoresCase | src/render/App.js:742-750 | the search gives the same outcome for a term and for its lower-case form |
| RoomTypes.LoweredNames | src/render/utils/matchRoomType.js:17-22 | the names compared are the type, the Korean and English names, then the aliases, all lowered |
| RoomTypes.AnyNameOccurs | src/render/utils/matchRoomType.js:24-28 | the inner loop succeeds exactly when one of the names occurs in the description |
| RoomTypes.FirstMatching | src/render/utils/matchRoomType.js:16-31 | finds the first room type one of whose names occurs, and none when no room type's name does |
| RoomTypes.MatchRoomType | src/render/utils/matchRoomType.js:11-32 | an empty or missing description matches nothing; otherwise the result is the first catalog entry one of whose names occurs in the description, ignoring case, and there is none exactly when no entry's name occurs |
| RoomTypes.MatchedPriceOrZero | src/render/App.js:360-361 | the matched room type's price, or 0 when nothing matches |
| RoomTypes.MatchIgnoresCase | src/render/utils/matchRoomType.js:14 | matching gives the same room type for a description and its lower-case form |
| RoomTypes.LowerEntry | src/render/utils/matchRoomType.js:22 | lowering every name of an entry leaves the names compared unchanged |
| RoomTypes.MatchIgnoresCatalogCase | src/render/utils/matchRoomType.js:16-29 | lowering every name of the catalog does not change which entry matches |
| RoomTypes.TypeNameOccurrenceMatches | src/render/utils/matchRoomType.js:17-27 | an entry whose type name occurs in a non-empty description guarantees a match |
| Status.SomeKeyword | src/render/utils/isCancelledStatus.js:23-25 | the scan succeeds exactly when some keyword occurs in the text, ignoring case |
| Status.IsCancelledStatus | src/render/utils/isCancelledStatus.js:3-50 | a reservation is cancelled exactly when its status, or its room information or number when present, mentions one of the ten keywords in any case, or its guest name contains an asterisk |
| Status.EmptyMentionsNothing | src/render/utils/isCancelledStatus.js:9-20 | the empty text mentions no keyword, so an empty field counts the same as a missing one |
| Status.KeywordsReduce | src/render/utils/isCancelledStatus.js:9-20 | the three longer Korean keywords contain "취소", so seven lowered keywords decide the same |
| Status.CaseInsensitive | src/render/utils/isCancelledStatus.js:23-42 | lowering the status, room information and number does not change the verdict |
| HotelSettings.NormalizeHotelId | src/components/HotelSettings.js:187 | the normalised id is never longer than the input, and empty exactly when the input is blank |
| HotelSettings.NormalizeHotelIdIdempotent | src/components/HotelSettings.js:187 | normalising an id a second time changes nothing |
| HotelSettings.NumberInput | src/components/HotelSettings.js:112-113 | an empty input is kept as the empty string; any other text becomes the number it reads as |
| HotelSettings.NumberInputRoundTrip | src/components/HotelSettings.js:112-113 | the decimal text of a number reads back as that number |
| HotelSettings.AliasesOf | src/components/HotelSettings.js:114-118 | one alias per part between separators, at least one, each trimmed and free of the separator |
| HotelSettings.AliasesRoundTrip | src/components/HotelSettings.js:114-118 | aliases shown joined by the separator read back as the same aliases when each is trimmed and free of `|` |
| HotelSettings.EmptyAliasesReadBackAsEmptyName | src/components/HotelSettings.js:114-138 | a row with no aliases reads back from its empty input as one empty alias, not an empty list |
| HotelSettings.EmptyAliasMatchesEverything | src/components/HotelSettings.js:199-201 | a room type holding an empty alias matches every room description |
| HotelSettings.EditEntry | src/components/HotelSettings.js:112-124 | price and stock take the number input, aliases the split list, and the type and names the text as typed; nothing else in the row changes |
| HotelSettings.HandleRoomTypeChange | src/components/HotelSettings.js:110-126 | only the edited row changes, and only in the edited field |
| HotelSettings.EditWithShownValueKeepsRow | src/components/HotelSettings.js:112-124 | retyping the text a field shows leaves the row as it was |
| HotelSettings.AddRoomType | src/components/HotelSettings.js:129-141 | one row is appended, typed after the new length, with both names, price and stock empty and no aliases; existing rows are unchanged |
| HotelSettings.RemoveRoomType | src/components/HotelSettings.js:144-146 | the row at the index is dropped and the others keep their order; an index outside the list removes nothing |
| HotelSettings.AddThenRemove | src/components/HotelSettings.js:129-146 | removing the row just added restores the list |
| HotelSettings.RemoveDropsOne | src/components/HotelSettings.js:144-146 | removal takes away exactly one copy of the removed row |
| HotelSettings.SavedAliases | src/components/HotelSettings.js:199-201 | saved aliases are the aliases trimmed and lowered, one for one, and none when the row holds no list |
| HotelSettings.SavedRoomType | src/components/HotelSettings.js:193-202 | a saved row keeps its type, trims its names, stores price and stock as numbers and normalises its aliases |
| HotelSettings.HandleSave | src/components/HotelSettings.js:149-206 | saving succeeds exactly when all three checks pass, and otherwise reports the first failing check's message; the saved settings carry the normalised non-empty id, a room count of at least 1, the trimmed contact fields and one saved row per row |
| HotelSettings.NullPriceSavedAsZero | src/components/HotelSettings.js:171-195 | a named row whose price and stock are `null` passes the check and is saved at 0, and an `undefined` price is refused |
| HotelSettings.AddedRowBlocksSave | src/components/HotelSettings.js:129-185 | saving right after adding a row is refused with the room-type message |
| HotelSettings.SavedAliasesIdempotent | src/components/HotelSettings.js:199-201 | normalising the saved aliases again changes nothing |
| HotelSettings.SavedRoomTypeStable | src/components/HotelSettings.js:193-202 | a saved row with non-blank names, loaded back, passes the check and saves to itself |
| HotelSettings.SavedRowsStable | src/components/HotelSettings.js:171-202 | saved rows with non-blank names, loaded back, save to the same rows |
| HotelSettings.SaveOfSavedForm | src/components/HotelSettings.js:149-206 | settings already in saved form load back into a form that saves to exactly them |
| HotelSettings.SaveIsStable | src/components/HotelSettings.js:149-206 | saving the settings that were just saved gives the same settings, provided no room-type name was saved blank |
| HotelSettings.BlankNameSavedEmpty | src/components/HotelSettings.js:175-198 | the name check looks at the untrimmed text, so a name of spaces passes it and is saved empty |
| GuestForm.Instant | src/components/GuestFormModal.js:96-101 | a date and a time denote an instant exactly when both are filled in; the instant lies the time's minutes after that day's midnight, and when the time is within the day, as an "HH:mm" value always is, the instant falls on the given day |
| GuestForm.Charge | src/components/GuestFormModal.js:106 | the charge is `NaN` exactly when the nights are, and for a positively priced room it is negative exactly when the nights are |
| GuestForm.RoomPrice | src/components/GuestFormModal.js:91-118 | choosing a room sets the price to its nightly price times the rounded-up nights when both dates are filled in, and to the nightly price alone otherwise; an unknown room counts 0 |
| GuestForm.HandleInputChange | src/components/GuestFormModal.js:88-122 | choosing a room sets the room and recomputes the price; every other input sets only its own field |
| GuestForm.CheckInDateChange | src/components/GuestFormModal.js:125-146 | check-in is set to 16:00 on the chosen day and check-out to 11:00 the next day, nineteen hours later; nothing else changes |
| GuestForm.CheckInChangeIsOneNight | src/components/GuestFormModal.js:125-162 | the stay a check-in change sets up counts as one night |
| GuestForm.CheckOutDateChange | src/components/GuestFormModal.js:149-175 | only the check-out date and the price change; the price is the current room's nightly price times the rounded-up nights of the new stay |
| GuestForm.PriceRulesAgree | src/components/GuestFormModal.js:91-175 | after a check-out change, choosing the same room again leaves the price where it is |
| GuestForm.HandleSubmit | src/components/GuestFormModal.js:178-216 | the form is handed on exactly when the price text reads, as `parseFloat` reads sign, digits and fraction, as a number not below zero, both instants exist and check-in comes first, with the checks reported in that order; the saved price is the whole part of the number, and the id is passed only in edit mode |
| GuestForm.NewForm | src/components/GuestFormModal.js:58-85 | a new form checks in today at 16:00 and out tomorrow at 11:00, with the first room type and its price, or "Standard" and no price when there are no room types |
| GuestForm.NewFormSubmits | src/components/GuestFormModal.js:178-203 | a new form can be saved as it opens when the first room type's price is not negative; without room types its empty price is refused |
| GuestForm.EarlyCheckOutRefused | src/components/GuestFormModal.js:149-186 | moving check-out a day or more before check-in makes a positively priced room's price negative, and the form refuses it with the price message |
| GuestForm.SignAndPointRead | src/components/GuestFormModal.js:181-186 | a price of "-0.5" is refused as negative and a price of ".5" passes the price check |
| GuestForm.WholePriceIsParseInt | src/components/GuestFormModal.js:181-186 | on a price text `parseInt` can read, the saved price is what `parseInt` reads |
| Login.AfterLogin | src/components/Login.js:75-88 | a login clears the counter and messages; a missing hotel (404) opens the settings dialog, and any other settings error is reported |
| Login.AfterFailure | src/components/Login.js:89-113 | a rejection (401) counts an attempt: the fifth disables the form, opens password recovery and resets the counter, an earlier one shows the server's message or a fixed one and the attempts left; any other error only shows its message; the counter stays below five |
| Login.Submit | src/components/Login.js:54-117 | the request carries the normalised id and the password as typed; the token and id are handed on exactly on success; loading ends on every path; the form never re-enables |
| Login.SubmitCounts | src/components/Login.js:76-113 | a login resets the counter, a rejection below the limit adds one and shows the attempts left, the fifth rejection locks the form, and any other error leaves the counter alone |
| Login.Run | src/components/Login.js:54-117 | over any run of submits the counter stays below five |
| Login.DisabledStaysDisabled | src/components/Login.js:95 | once the form is disabled, no sequence of outcomes enables it again |
| Login.RejectionsCount | src/components/Login.js:90-104 | rejections in a row each add one to the counter while it stays below the limit |
| Login.RejectionsLock | src/components/Login.js:90-97 | rejections in a row that reach the limit lock the form and open password recovery, with the counter back at 0, from any count below the limit |
| Login.FiveRejectionsLock | src/components/Login.js:90-96 | five rejected logins from the start lock the form and open password recovery, with the counter back at 0 |
| Login.RunOne | src/components/Login.js:54-117 | a run of one outcome is one submit |
| Login.RunSplit | src/components/Login.js:54-117 | running two runs one after the other is running their concatenation |
| PasswordReset.TestPassword | src/render/components/ResetPassword.js:26-27 | the scan accepts exactly the passwords of at least eight allowed characters that contain a letter, a digit and one of `@$!%*#?&` |
| PasswordReset.TestEmail | src/components/ForgotPassword.js:26-27 | the scan accepts exactly the texts of the form user@host.top with no whitespace, exactly one `@` and every part non-empty |
| PasswordReset.EmailSplitFacts | src/components/ForgotPassword.js:26 | an address of that form has no whitespace and its only `@` is the one separating user and host |
| PasswordReset.HandleReset | src/render/components/ResetPassword.js:17-49 | a mismatch or a weak password is reported and nothing is sent; otherwise the token and the new password are sent, success and failure set the message or the server's error, and submitting ends |
| PasswordReset.HandleRequest | src/components/ForgotPassword.js:21-46 | a request is sent exactly when the trimmed address has the e-mail form, and the address sent is the one typed; failure shows the server's message or a fixed one; submitting ends on every path |
| PasswordReset.PaddedEmailSentAsTyped | src/components/ForgotPassword.js:27-34 | an address with surrounding spaces passes the check and is sent with its spaces |
| Registration.SubmitHotelId | src/components/HotelIdModal.js:10-18 | a blank id is refused with a message; any other id clears the message and is submitted normalised and non-empty |
| Registration.SubmitHotelIdStable | src/components/HotelIdModal.js:12-17 | typing back the submitted id submits it again unchanged |
| Registration.Register | src/components/Register.js:16-42 | the id is sent normalised, the password as typed and the contact fields trimmed; success is reported exactly when registration succeeds and leaves the error shown before unchanged; failure shows the server's message or a fixed one |
| Registration.RegisteredIdIsLoginId | src/components/Register.js:19-21 | the id an account is registered under is the id the login form sends, whether typed as at registration or as stored |
| ScrapeButton.TryScrape | src/components/ScrapeNowButton.js:32-85 | without `invoke` nothing is called and the failure alert shows; the ensure call always comes first; the scrape is requested exactly when the ensure succeeds and the bridge has everything the block uses; no alert shows exactly when that request also resolves |
| ScrapeButton.HandleScrapeNow | src/components/ScrapeNowButton.js:18-95 | a busy button does nothing; no active site raises an alert and nothing else; otherwise the cooldown starts whatever happens, and a scrape request carries the hotel id and the active sites and follows a successful ensure |
| ScrapeButton.CooldownEnds | src/components/ScrapeNowButton.js:91-93 | when the timer fires the cooldown ends and nothing else changes |
| ScrapeButton.CooldownBlocksUntilItEnds | src/components/ScrapeNowButton.js:20-94 | a click that got past the guards blocks every click until its cooldown ends, and then the button is free again |
| ScrapeButton.HealthyClick | src/components/ScrapeNowButton.js:31-78 | with a complete bridge that answers success, a click from rest makes exactly the ensure call and then the scrape call, and raises no alert |
| Js.ParseInt | src/components/EditReservationModal.js:51 | `parseInt` is `NaN` exactly when, after leading whitespace and an optional sign, no digit follows |
| Js.ParseIntOfParts | src/components/EditReservationModal.js:51 | whitespace, an optional sign, digits and then anything not starting with a digit read as the signed value of those digits |
| Js.ReadDecimal | src/components/GuestFormModal.js:181 | `parseFloat` reads a number exactly when a digit comes before or after the point; a numeral with whole digits reads with the same sign and whole part as `parseInt` |
| Js.ReadSignAndPoint | src/components/GuestFormModal.js:181-183 | "-0.5" reads as a negative numeral and ".5" as a numeral with no whole digits and fraction 5 |
| Js.ReadDecimalOfString | src/components/GuestFormModal.js:181 | `parseFloat` reads a number's decimal text back with the number's sign, its digits and no fraction |
| Js.NumToStringRoundTrip | src/components/GuestFormModal.js:110-116 | a number's text is non-empty and reads back as the same number through both `Number` and `parseInt` |
| Js.OrText | src/components/Login.js:99-112 | `a \|\| b` on texts is the first text unless it is empty |
| Text.Trim | src/components/Register.js:19-25 | `trim` removes exactly the leading and trailing whitespace: the result is a slice of the input with only whitespace around it, and it neither starts nor ends with whitespace |
| Text.Lower | src/components/Register.js:19 | lowering keeps the length and lowers each character |
| Text.SplitOn | src/components/HotelSettings.js:116-117 | `split` gives at least one part, no part contains the separator, and a text without the separator is its own only part |
| Text.SplitJoinOn | src/components/HotelSettings.js:116-117 | splitting a join gives back the pieces when no piece holds the separator's first character |
| Sorting.SortBy | src/components/RoomGrid.js:585-587 | the sorted list is a permutation of the input ordered by the key |
| Sorting.InsertStable | src/components/RoomGrid.js:585-587 | inserting an element keeps, among the elements with any one key, the inserted one first and the others in order |
| Sorting.SortStable | src/components/RoomGrid.js:585-587 | the sort is stable: the elements with any one key appear in input order |

## Left out

- Rendering, routing, modals, alerts, console logging and `localStorage` are left out: they hold no logic beyond what is modelled. This includes loading the saved OTA toggles (src/render/App.js:125-127) and the settings-loading effect of the settings dialog (src/components/HotelSettings.js:43-107).
- Timers (`setTimeout`, cron firing) are not modelled as time passing; each is an explicit transition, such as `ScrapeButton.CooldownEnds` or `Schedule.Firings`.
- The Kakao login redirect (src/components/Login.js:32-49) is left out: it is a browser redirect only.
- DOM extraction, clicks and selector waits inside the adapters are left out; the texts a row yields are parameters. The Agoda navigation, login and send flow (scrapers/otas/agoda.js:148-378) appears only through `Agoda.ParseRows`, `Agoda.AssignPrices` and `Tabs`.
- The yanolja and goodHotel adapters are left out: they are almost entirely page interaction, and their tab reuse is the one `Tabs` models.
- Chrome discovery and launching (browserConnection.js) is left out; `connectToChrome` is a parameter that either gives a browser or fails.
- The HTTP clients (api.js, scrapeHelper.js) are left out. The outcomes of `fetchHotelSettings`, `sendReservations`, `loginUser`, `registerUser` and the password-reset calls are parameters, and the token-refresh queue is not modelled.
- Date libraries are left out. Parsing and formatting are parameters, and dateParser.js is not part of this model. There are no time zones and no daylight-saving changes.
- The monthly filter reads the check-in through the supplied parser, like every other date.
- Js.StrToNumber reads only optionally signed decimal integers. JavaScript `Number` also reads fractions, exponents and hexadecimal, and those inputs are not modelled.
- GuestForm.HandleSubmit saves only the whole part of a fractional price: "12.5" is saved as 12 where the source saves 12.5, because every number in the model is an integer. Which texts are refused follows `parseFloat`'s reading of sign, digits, point and fraction, except that `Js.ReadDecimal` stops at an exponent ("1e3" is saved as 1, not 1000) and does not read "Infinity", which the source accepts.
- All arithmetic is on integers. Floating-point display arithmetic is left out: occupancy, average price and room counts (src/render/App.js:318-341), and the 0.9 tax factors.
- Text.Lower lowers ASCII and Latin-1 letters only. That covers every keyword and name the code compares; other scripts' case mappings are not modelled.
- RoomGrid.DayDifference: an unparsable date gives `None`, so category 3. In the source an invalid `Date` gives `NaN`, which also falls to category 3.
- RoomGrid.LayoutGroups orders groups of equal size in first-seen order (Grouping.GroupByFirstSeenOrder with RoomGrid.EqualSizedGroupsKeepOrder). `Object.entries` lists integer-like site names first; site names are never integer-like in practice.
- ScraperManager: the adapter list the manager imports is taken to be the one in src/render/config/availableOTAs.js; the Electron copy is not part of this model.
- Interleaving of a manual scrape with a scheduled one is left out: the source has no lock, so nothing can be stated about it.
- The other `main.mjs` handlers and window creation are left out: they are plumbing.
- GuestForm.CheckInDateChange leaves the form unchanged for an empty date, where the source would throw.
- GuestForm: the edit-mode prefill effect (src/components/GuestFormModal.js:28-55) and the alerts after `onSave` are left out.
- HotelSettings.HandleRoomTypeChange requires an index of an existing row, as the rows are rendered from the list. It also returns a new row, whereas the source copies only the outer list (`[...roomTypes]`) and assigns into the shared row object, so the edit shows through in `existingSettings.roomTypes` or the default rows that the list was built from; the model has no shared objects. The save request after validation is left out.
- Agoda.CutRoomInfo counts characters, not UTF-16 code units, when it cuts at 50. The same holds for the two-character minimum of Sales.ExecuteSearch and the leading characters of Agoda.PrefixLength. They differ from the source only for characters outside the Basic Multilingual Plane, such as emoji; Hangul and Latin text take one unit per character.
- Room names and aliases that are not strings are left out: every value the forms produce is a string.
- ScrapeButton: the `Electron.test` call and the log calls are left out; only their presence on the bridge is modelled.
- The edit dialog's `handleChange` is left out: it copies a typed value into one field.
- Display: the `toLocaleString` number formatting and the `원` unit are left out. `Display.GetPriceForDisplay` gives the number and the default flag.
- The invoice's layout is left out; only its room text and total are modelled.
