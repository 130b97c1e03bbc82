# Setlist import core, modelled in Dafny

This project models the core of a concert-diary application: the API routes and
libraries of the web app, the CSV parsing its upload page runs in the browser,
and the import agent. Users
keep a list of the shows they attended. The application links each attended show
to two shared tables:

- a central show, with a readable `show_id` slug made of the date, the artist and
  the venue;
- a venue row, found in the store or created from a Google Maps geocode.

The core exists twice:

- in the web app (TypeScript);
- in the import agent (Python), which parses free-form files into shows.

The model covers these parts:

- **Show ids.** Artist-name slugs, show-id generation, and parsing an id back into
  its parts (`ShowId`).
- **Central shows.** Get-or-create with a running sequence suffix for same-day
  duplicates, in both languages (`CentralShows`, `ShowResolver`).
- **Venues.** Lookup and get-or-create, with or without a geocode, in both
  languages (`Venues`, `VenueResolver`).
- **Geocoders.** The Google geocoders and their address-component extractors in
  both languages (`GoogleMaps`), and the OpenStreetMap search (`Osm`).
- **Ratings.** Validation of a user's rating-system configuration and of rating
  values, the display value, and the comparison used for sorting (`Rating`).
- **CSV import.** Schema validation, date and artist parsing, and the
  transformation into rows (`CsvParser`, with `Calendar` modelling the JavaScript
  `Date` constructor).
- **API routes.** The plain upload (`Upload`), the streaming upload with venue
  resolution (`UploadProgress`) and the bulk delete (`BulkDelete`).
- **Import pipeline.** The agent's pipeline, which resolves shows in batches of
  ten and yields them in order (`Pipeline`).

## How the model is built

- **Stores.** A table is an immutable sequence of rows. A created row's id is its
  position (`Venues.Positions`). Where the source keeps a UUID as a string, the
  model renders the position as a decimal string (`Text.NatToString`).
- **Store failures.** A `Db.Faults` record says which store calls fail on a given
  call: the lookup, the count or the insert. Every error branch of the source is
  therefore a reachable input. Where one operation makes a store call per
  artist (`ShowResolver.ResolveEach`), a `ShowResolver.ArtistFaults` function
  gives each artist's calls their own record, so one artist's calls can fail
  while another's succeed.
- **Single-row reads.** Two lookups behave differently:
  - `.single()` (central shows) turns 0 rows and several rows into the same
    "no row" answer;
  - `.maybeSingle()` (venues, and `maybe_single` in Python) reports an error when
    it finds several rows.
- **Network calls.** The geocoders and the HTTP calls are parameters:
  - an HTTP outcome for a single call;
  - a function from venue parameters to outcome for a batch.
  `parseFloat` is a parameter `string -> Option<real>` too.
- **Fixes kept beside the original.** Where the source has a defect (see
  Findings), the model keeps the code as written next to the corrected
  behaviour, and the rest of the model uses the corrected one:
  - `Venues.FallbackLookup` selects the venue re-check;
  - `UploadProgress.Route` selects how the streaming upload calls the venue
    resolver;
  - `CsvParser.DateRoute` selects which day a CSV show stores.
- **The streaming upload's venue step.** The loop over the shows
  (`UploadProgress.ResolveVenues`) takes the venue resolver as a function
  value, `UploadProgress.Resolver`. Its cache lemmas hold for any resolver that
  only appends rows (`UploadProgress.ResolverSound`).
  `UploadProgress.RouteResolver` is the resolver the route uses:
  `getOrCreateVenueWithStatus` with the upload's geocoder and faults.

## Model

| member | source | states |
|---|---|---|
| Text.Trim | app/lib/csv-parser.ts:80 | a trimmed string neither starts nor ends with JavaScript white space |
| Text.TrimFrames | app/lib/csv-parser.ts:122 | trimming removes only white space: the input is white space, then the trimmed text, then white space |
| Text.TrimIdempotent | app/lib/csv-parser.ts:122 | trimming twice gives the same text as trimming once |
| Text.Split | app/lib/show-id.ts:69 | splitting on a separator gives one more part than there are separators |
| Text.SplitParts | app/lib/show-id.ts:69 | no part contains the separator, and joining the parts with it gives back the input |
| Text.SplitJoin | app/lib/show-id.ts:102-105 | splitting a join of separator-free parts gives back the parts |
| Text.OrNull | app/lib/csv-parser.ts:138-141 | `x \|\| null` keeps a non-empty string and maps the empty string and null to null |
| Text.TruthyValues | app/lib/google-maps.ts:11-16 | `filter(Boolean)` drops only empty parts: every kept string is non-empty, and nothing is dropped exactly when every part is present and non-empty |
| Text.TruthyValuesSingle | app/lib/google-maps.ts:11-16 | one part is kept exactly when it is present and non-empty |
| Text.TruthyValuesAppend | app/lib/google-maps.ts:11-16 | filtering a concatenation filters each half and keeps their order, so the kept strings stay in the input's order |
| Text.NatToString | app/lib/show-id.ts:48 | a number's decimal text is all digits and reads back as the same number |
| Text.NatToStringInjective | app/lib/show-id.ts:48 | different numbers have different decimal texts |
| Text.ParseIntJs | app/lib/csv-parser.ts:87-91 | `parseInt(_, 10)` fails exactly when no digit follows the leading white space and optional sign |
| Text.ParseIntOfNumeral | app/lib/csv-parser.ts:87 | `parseInt` of a decimal numeral followed by a non-digit gives that number |
| Db.Single | app/lib/central-shows.ts:29-36 | `.single()` succeeds exactly when there is no fault and exactly one row |
| Db.MaybeSingle | app/lib/venues.ts:57-62 | `.maybeSingle()` fails on a fault or several rows, and gives a row exactly when there is exactly one |
| ShowId.NormalizeArtistName | app/lib/show-id.ts:13-25 | the slug has only `a-z0-9` and single hyphens, with no hyphen at either end |
| ShowId.NormalizeArtistNamePy | services/agent/app/services/show_id.py:4-15 | the Python slug has the same shape |
| ShowId.NormalizersAgree | services/agent/app/services/show_id.py:10-14 | the Python and TypeScript slugs are equal for every input, and trimming first changes nothing |
| ShowId.NormalizeIdempotent | app/lib/show-id.ts:13-25 | normalising a slug again leaves it unchanged |
| ShowId.NormalizeFixesSlug | app/lib/show-id.ts:13-25 | every well-formed slug is its own normalisation |
| ShowId.WordSlug | services/agent/tests/test_show_id.py:5-6 | a lower-case word is its own slug in both languages |
| ShowId.TwoWordSlug | services/agent/tests/test_show_id.py:8-24 | two words separated by any run of non-alphanumerics become `w1-w2` in both languages |
| ShowId.TrailingPunctuationDropped | services/agent/tests/test_show_id.py:11-12 | trailing punctuation after a word is dropped, as in `moe.` to `moe` |
| ShowId.TrimIrrelevant | app/lib/show-id.ts:15 | trimming before slugging does not change the slug |
| ShowId.GenerateShowId | app/lib/show-id.ts:38-52 | the id starts with `date-slug-venue`, and a positive sequence adds exactly `-digits` |
| ShowId.GenerateShowIdPy | services/agent/app/services/show_id.py:18-34 | the Python generator returns the same id as the TypeScript one |
| ShowId.SequenceOneAppendsSuffix | services/agent/tests/test_show_id.py:38-48 | sequence 1 appends `-1`, and sequence 0 is ignored |
| ShowId.SequencesDistinguishIds | app/lib/show-id.ts:47-49 | two different positive sequences give different ids |
| ShowId.SplitGenerated | app/lib/show-id.ts:45-48 | the hyphen-split of an id is the split date, then the split slug, then the split venue id, then the sequence |
| ShowId.ParseShowId | app/lib/show-id.ts:63-113 | parsing throws exactly when the id has fewer than two hyphens |
| ShowId.ParseFromFields | app/lib/show-id.ts:76-105 | an id of three date parts, a slug, a five-part venue id and an optional numeric tail parses into exactly those fields |
| ShowId.ParseGenerateRoundTrip | app/lib/show-id.ts:63-113 | parsing a generated id gives back the date, the slug, the venue id and the sequence, for a three-part date and a five-part venue id not ending in digits |
| ShowId.NumericVenueTailMisread | app/lib/show-id.ts:85-99 | when the venue id's last group is all digits and there is no sequence, the parser reads that group as a sequence |
| CentralShows.Matches | app/lib/central-shows.ts:23-28 | the rows selected are exactly the rows with the given date, artist and venue |
| CentralShows.FindCentralShow | app/lib/central-shows.ts:16-40 | the lookup fails only on a store fault, and finds a row exactly when exactly one row has the key |
| CentralShows.GetOrCreateCentralShow | app/lib/central-shows.ts:47-121 | an existing show is returned unchanged; otherwise one row is appended with the next id in the sequence for its base; the call fails exactly on a failing store call |
| CentralShows.AllowDuplicateIrrelevant | app/lib/central-shows.ts:69-77 | the `allowDuplicate` flag never changes the outcome |
| CentralShows.NewIdIsNextInSequence | app/lib/central-shows.ts:83-98 | the new id is the base id when no id starts with the base, and otherwise the base with the count as suffix |
| CentralShows.SequencedIdInjective | app/lib/central-shows.ts:95-98 | different sequence numbers give different ids |
| CentralShows.PrefixCountAppend | app/lib/central-shows.ts:83-92 | the LIKE count grows by one exactly when the new id starts with the base |
| CentralShows.CreateKeepsIdsUnique | app/lib/central-shows.ts:83-114 | on a contiguous sequence, a created id is new, the sequence stays contiguous, and unique ids stay unique |
| CentralShows.CreateCentralShows | app/lib/central-shows.ts:128-147 | every requested show gets a row with its key, in order, in a table that only grew |
| CentralShows.GetCentralShowsByIds | app/lib/central-shows.ts:153-178 | an empty list returns nothing without a query; otherwise the result is exactly the rows whose id is listed |
| CentralShows.GetCentralShowsByShowIds | app/lib/central-shows.ts:184-203 | an empty list returns nothing without a query; otherwise the result is exactly the rows whose `show_id` is listed |
| ShowResolver.FindCentralShowPy | services/agent/app/services/show_resolver.py:10-30 | the lookup fails on a fault or on several matching rows, and finds a row exactly when one row matches |
| ShowResolver.GetOrCreateCentralShowPy | services/agent/app/services/show_resolver.py:33-89 | an empty argument gives None; otherwise an existing show's id is returned, or one row is appended with the next id in the sequence; with non-empty arguments and no count or insert fault an id is always returned |
| ShowResolver.ResolversAgree | services/agent/app/services/show_resolver.py:47-87 | when both succeed, the Python and TypeScript resolvers leave the same table and return the same id |
| ShowResolver.ResolveShowsForArtists | services/agent/app/services/show_resolver.py:92-110 | the table only grows, and a result lists between one and as many ids as there are artists |
| ShowResolver.ResolveEachRows | services/agent/app/services/show_resolver.py:100-108 | when no artist's count or insert fails, the i-th returned id names a stored row keyed by the i-th non-empty artist |
| ShowResolver.ResolveShowsComplete | services/agent/app/services/show_resolver.py:92-110 | when no artist's count or insert fails, the result is None exactly when no artist is non-empty, and otherwise has one id per non-empty artist |
| GoogleMaps.AddressParts | app/lib/google-maps.ts:11-16 | the address has at most four parts, none of them empty |
| GoogleMaps.AddressPartsInOrder | app/lib/google-maps.ts:11-16 | the address parts are the name, city, state and country in that order, each kept exactly when it is non-empty |
| GoogleMaps.FullAddressQuery | app/lib/google-maps.ts:11-18 | with every field present, the query is `name, city, state, country` |
| GoogleMaps.FalsyFieldsSkipped | app/lib/google-maps.ts:11-18 | with no location fields, the query is the name alone |
| GoogleMaps.GeocodeVenueTs | app/lib/google-maps.ts:7-51 | the call throws exactly when the API key is missing; a non-empty result needs a 2xx answer whose status is OK or ZERO_RESULTS, and is that answer's result list |
| GoogleMaps.GeocodeTsPassesResults | app/lib/google-maps.ts:41-46 | an OK answer's results are returned unchanged |
| GoogleMaps.FirstWithType | app/lib/google-maps.ts:57-58 | the component found is the first one carrying one of the tags, and there is none exactly when no component carries one |
| GoogleMaps.ExtractCityTs | app/lib/google-maps.ts:56-62 | the city is the long name of the first locality-like component, and null when that name is empty or missing |
| GoogleMaps.ExtractStateTs | app/lib/google-maps.ts:67-72 | the state is the short name of the first first-level area, falling back to its long name |
| GoogleMaps.ExtractCountryTs | app/lib/google-maps.ts:77-80 | with no country component the answer is `Unknown`; with one whose long name is non-empty it is that long name; any other answer than `Unknown` is the first country component's long name |
| GoogleMaps.GeocodeVenuePy | services/agent/app/clients/google_maps.py:39-66 | a missing key gives an empty list; only a network failure or an unreadable 200 answer raises; a non-empty result is a 200 answer's list with an accepted status |
| GoogleMaps.GeocodersAgreeOn200 | services/agent/app/clients/google_maps.py:49-66 | on a 200 answer both geocoders return the same results; a missing key throws in TypeScript but gives an empty list in Python; a network failure is swallowed in TypeScript but raises in Python |
| GoogleMaps.PlaceIdPy | services/agent/app/clients/google_maps.py:14-20 | a missing `place_id` reads as the empty string |
| GoogleMaps.ComponentsPy | services/agent/app/clients/google_maps.py:30-36 | missing components read as an empty list, and a missing partial-match flag reads as false |
| GoogleMaps.ExtractCityPy | services/agent/app/clients/google_maps.py:69-74 | the city is the first locality-like component's long name, even when that name is empty |
| GoogleMaps.ExtractStatePy | services/agent/app/clients/google_maps.py:77-82 | the state is the first first-level area's short name, falling back to its long name |
| GoogleMaps.ExtractCountryPy | services/agent/app/clients/google_maps.py:85-90 | the country is the first country component's long name, and otherwise `Unknown` |
| GoogleMaps.ExtractorsAgree | services/agent/app/clients/google_maps.py:69-90 | when every component has a non-empty long name, the Python and TypeScript extractors agree |
| GoogleMaps.ExtractorsDivergeOnEmptyName | services/agent/app/clients/google_maps.py:69-74 | an empty or missing long name gives null in TypeScript but `""` or `None` text in Python |
| Osm.OsmQueryShape | app/lib/osm.ts:38-42 | the search query is the name followed by whichever of city and country are present |
| Osm.OsmQueryMatchesGoogle | app/lib/osm.ts:38-42 | without a state, the OSM query equals the Google query |
| Osm.SearchVenue | app/lib/osm.ts:29-73 | a readable 2xx answer is returned as is, and every other outcome gives an empty list |
| Osm.ExtractCity | app/lib/osm.ts:78-81 | the city is one of the three address fields and never empty; there is none exactly when all three are missing or empty; a non-empty `city` wins, then a non-empty `town` |
| Osm.ExtractState | app/lib/osm.ts:86-89 | the state is present exactly when the address has a non-empty state |
| Osm.ExtractCountry | app/lib/osm.ts:94-97 | the country is present exactly when the address has a non-empty country |
| Venues.VenueMatches | app/lib/venues.ts:36-55 | the rows selected are exactly the rows matching the name and each given field |
| Venues.FindVenue | app/lib/venues.ts:23-65 | a venue is found exactly when some field is given, the read succeeds and exactly one row matches |
| Venues.AtMostOneMatch | app/lib/venues.ts:36-62 | in a table without duplicate keys, at most one row matches a query |
| Venues.InsertAfterMiss | app/lib/venues.ts:113-137 | appending a normal row whose key was not found keeps keys unique and ids positional |
| Venues.FallbackRow | app/lib/venues.ts:159-170 | the row built without a geocode carries the caller's fields, with `Unknown` for a missing country and no coordinates |
| Venues.CreateVenueWithoutGeocode | app/lib/venues.ts:147-189 | at most one row is appended, and only when the re-check missed; the returned venue agrees with the request |
| Venues.MergedRow | app/lib/venues.ts:99-110 | the geocoded row keeps the caller's fields, fills missing ones from the top result, and takes its coordinates and place id |
| Venues.CreateVenueFromGoogleMaps | app/lib/venues.ts:70-142 | without results it is the no-geocode path; with results it appends the merged row only when its own key is not yet stored |
| Venues.GetOrCreateVenue | app/lib/venues.ts:196-227 | a USA venue without city or state, or a nameless one, gives null; an existing venue is returned unchanged; otherwise at most one row is added, and it agrees with the request |
| Venues.GetOrCreateVenueWithStatus | app/lib/venues.ts:234-290 | with one answer for each of the two geocoder calls: the status is `existing` exactly when the lookup finds the venue; it is `failed` exactly when there is no id; `created_with_geocode` needs results from the first call, and a row it inserts has coordinates exactly when the second call gave a usable top result; a first call that throws fails every creation |
| Venues.CreateWithStatus | app/lib/venues.ts:260-289 | after the lookup missed: `created_with_geocode` only with results from the first call, and its inserted row has coordinates exactly when the second call gave a usable top result; `failed` exactly when there is no id, and then the table is unchanged; an id names a stored venue agreeing with the caller |
| Venues.GeocodeStatusWithoutCoordinates | app/lib/venues.ts:77-82 | when the first geocoder call finds results and the second finds none, the stored venue has no coordinates, yet the status is `created_with_geocode` |
| Venues.WithStatusAgreesWithPlain | app/lib/venues.ts:234-290 | when both geocoder calls give the same answer and the insert works, both entry points leave the same table and give the same venue id |
| Venues.RejectionSplitsEntryPoints | app/lib/venues.ts:285-289 | when the geocoder throws, the status variant fails while the plain variant still creates a venue |
| Venues.RecheckKeepsUnique | app/lib/venues.ts:113-137 | with the re-check on the inserted row's own fields, get-or-create never stores two rows with one key |
| Venues.RecheckIdempotent | app/lib/venues.ts:196-227 | with that re-check, asking again for the same venue returns the same id and adds nothing |
| Venues.SecondLookupFindsRow | app/lib/venues.ts:113-122 | a row created from a geocode is found by the next identical request |
| Venues.MissingCountryDuplicates | app/lib/venues.ts:147-189 | as written, two identical requests without a country store two rows with the same key |
| VenueResolver.FindVenuePy | services/agent/app/services/venue_resolver.py:15-46 | an empty name finds nothing; the read raises on a fault or several matches; one match is found |
| VenueResolver.PlainRowPy | services/agent/app/services/venue_resolver.py:68-79 | the row without a geocode carries the caller's fields, with `Unknown` for a missing country |
| VenueResolver.MergedRowPy | services/agent/app/services/venue_resolver.py:81-100 | the geocoded row keeps the caller's fields and takes the top result's coordinates, place id and address |
| VenueResolver.RecheckKeyMatchesKey | services/agent/app/services/venue_resolver.py:103-110 | the re-check on the built row's fields selects exactly the rows with that row's key |
| VenueResolver.CreateVenuePy | services/agent/app/services/venue_resolver.py:81-122 | after the lookup missed: when the re-check by the new row's own fields finds a venue, that venue's id is returned and nothing is inserted; when it finds none and the insert succeeds, the row is appended and its id returned; the table grows by at most one row whose key was absent; an id names a stored venue agreeing with the caller |
| VenueResolver.GetOrCreateVenuePy | services/agent/app/services/venue_resolver.py:49-122 | a nameless venue gives None; the call raises exactly on a read fault or several matches; an existing match is returned by its id with the table unchanged; an added row's key was absent; a geocoding error with no match gives None; on a unique table without faults a geocoded venue always gets an id |
| VenueResolver.PyInsertKeepsUnique | services/agent/app/services/venue_resolver.py:103-117 | an inserted normal row keeps keys unique and ids positional |
| VenueResolver.VenueResolversAgree | services/agent/app/services/venue_resolver.py:49-122 | on well-formed geocoder answers the Python resolver and the corrected TypeScript resolver give the same table and id |
| Rating.LabelsOf | app/lib/rating-validation.ts:23-27 | an array is a label list exactly when every item is a non-empty string |
| Rating.DirectionOf | app/lib/rating-validation.ts:36-37 | a direction is read exactly from `higher_is_better` or `lower_is_better` |
| Rating.ValidateRatingSystemConfig | app/lib/rating-validation.ts:12-52 | a valid configuration is an object whose type is one of the three known kinds (the exact characterisation is `Rating.ValidateMeansDecodes`) |
| Rating.ValidateMeansDecodes | app/lib/rating-validation.ts:12-52 | a configuration is valid exactly when it decodes to a well-formed rating system of the named type |
| Rating.EncodeDecodeRoundTrip | app/lib/rating-validation.ts:12-52 | every well-formed rating system, written out as JSON, validates and decodes back to itself |
| Rating.AcceptedNumber | app/lib/rating-validation.ts:76-88 | a number is accepted when it parses and is an integer or decimals are allowed |
| Rating.ValidateRatingValue | app/lib/rating-validation.ts:57-116 | an empty value is valid; without a system any value is invalid; a list value must be listed; a range value must be an accepted number within the bounds; an unbounded value must be an accepted number |
| Rating.GetRatingDisplayValue | app/lib/rating-validation.ts:121-130 | the display is `-` exactly when there is no value or no system, and otherwise the value itself |
| Rating.ValidRatingDisplayed | app/lib/rating-validation.ts:121-130 | a valid non-empty rating is displayed as itself |
| Rating.ListedLabelsValid | app/lib/rating-validation.ts:71-74 | every listed label is a valid rating for its list |
| Rating.IndexOf | app/lib/rating-validation.ts:151-152 | `indexOf` gives the first position of the value, and -1 exactly when it is not listed |
| Rating.CompareRatings | app/lib/rating-validation.ts:137-186 | the sign of the comparison follows a key: a missing rating is lowest, then an unlisted or unparsable one, then list position or the number in the configured direction; without a system all present ratings tie |
| Rating.CompareIsTotalPreorder | app/lib/rating-validation.ts:137-186 | the comparison is reflexive, antisymmetric in sign, and transitive, so it is a valid sort comparator |
| Rating.ListOrderInverted | app/lib/rating-validation.ts:150-161 | as written, a better list value compares below a worse one, against the documented order |
| Rating.CompareRatingsCorrected | app/lib/rating-validation.ts:132-186 | the corrected comparison orders by the documented key |
| Rating.CorrectedBetterIsGreater | app/lib/rating-validation.ts:132-136 | with the correction, a better rating compares greater in every kind of system, and the order is still a valid comparator |
| Calendar.DaysInMonth | app/lib/csv-parser.ts:95-103 | months have 28 to 31 days, and 29 exactly for February of a leap year |
| Calendar.RollDays | app/lib/csv-parser.ts:95 | an out-of-range day rolls into an earlier or later month, and an in-range day stays |
| Calendar.NewDate | app/lib/csv-parser.ts:95 | `new Date(y, m, d)` always yields a real calendar day |
| Calendar.NewDateKeepsExactlyValid | app/lib/csv-parser.ts:95-103 | the constructed date keeps its fields exactly when they form a valid date |
| CsvParser.Unslash | app/lib/csv-parser.ts:81 | splitting on `-` or `/` treats slashes as hyphens |
| CsvParser.DateFields | app/lib/csv-parser.ts:81-91 | fields are read exactly when there are three parts and each starts with digits |
| CsvParser.FullYear | app/lib/csv-parser.ts:93 | a two-digit year is read in the 2000s |
| CsvParser.DateOfFields | app/lib/csv-parser.ts:93-106 | the three numbers give a date exactly when they form a valid calendar day once the year is expanded, and then that day |
| CsvParser.ParseDate | app/lib/csv-parser.ts:79-106 | a parsed date is a valid calendar day whose year is the expanded year of the text |
| CsvParser.ParseDateExactlyValid | app/lib/csv-parser.ts:79-106 | parsing succeeds exactly when the three numbers form a valid date, and then gives that date |
| CsvParser.ParseDateOfText | app/lib/csv-parser.ts:79-106 | every valid `M-D-Y` or `M/D/Y` text parses to its date |
| CsvParser.ParseArtists | app/lib/csv-parser.ts:119-124 | artists are non-empty, trimmed and free of `+`, and there are at most as many as `+`-separated parts |
| CsvParser.ParseArtistsJoin | app/lib/csv-parser.ts:119-124 | parsing clean names joined by `+` gives back the names |
| CsvParser.ParseArtistsAppend | app/lib/csv-parser.ts:119-124 | parsing `a+b` gives the artists of `a` followed by those of `b` |
| CsvParser.ParseArtistsSingle | app/lib/csv-parser.ts:119-124 | a field without `+` gives its trimmed text as the single artist, or no artist when it is blank |
| CsvParser.MissingHeaders | app/lib/csv-parser.ts:34-49 | every error names a required header missing from the first row, and there are none exactly when all are present |
| CsvParser.MissingHeadersReportAll | app/lib/csv-parser.ts:45-49 | every required header missing from the first row gets its own missing-header error |
| CsvParser.RowErrors | app/lib/csv-parser.ts:55-71 | a row has no errors exactly when its date is present and valid and its artist is present; at most two errors, each on the row's line |
| CsvParser.RowErrorsKinds | app/lib/csv-parser.ts:59-70 | a blank date gives the missing-date error first; a filled date that does not parse gives the invalid-date error quoting the text; a valid date gives no date error; the missing-artist error is present exactly when the artist is blank |
| CsvParser.RowsErrors | app/lib/csv-parser.ts:55-71 | each error is a missing-field or invalid-date error naming a row in range |
| CsvParser.RowsErrorsEmpty | app/lib/csv-parser.ts:55-71 | the rows give no errors exactly when every row has a valid date and an artist |
| CsvParser.RowsErrorsNameFailingRows | app/lib/csv-parser.ts:55-71 | every error names a row that has a missing field or an invalid date |
| CsvParser.RowsErrorsReportFailingRows | app/lib/csv-parser.ts:55-71 | every row with a missing field or an invalid date is named by some error |
| CsvParser.ValidateCsvSchema | app/lib/csv-parser.ts:26-77 | a file is valid exactly when it is non-empty, has all headers and every row is fine; an empty file gives one error; header errors stop row checks; a row error names file line i + 2 exactly for a failing row i, in both directions |
| CsvParser.RowsValidation | app/lib/csv-parser.ts:55-76 | with the headers present, the rows are valid exactly when every row passes; each error names a failing row on line i + 2, and each failing row is reported |
| CsvParser.ValidateCsvSchemaHeaderErrors | app/lib/csv-parser.ts:42-53 | in a non-empty file, every required header absent from the first row is reported |
| CsvParser.ValidateCsvSchemaErrorsFromRows | app/lib/csv-parser.ts:55-71 | each reported row error is one of the errors of the row it names |
| CsvParser.ValidateCsvSchemaKeepsRowErrors | app/lib/csv-parser.ts:55-71 | with all headers present, every error of every row is reported |
| CsvParser.TrimmedOrNull | app/lib/csv-parser.ts:138-141 | an optional cell becomes its trimmed text when non-blank, and null otherwise |
| CsvParser.StoredDay | app/lib/csv-parser.ts:131-132 | the stored day exists exactly when the date parsed and is a valid day; as written it is the written day exactly at or west of UTC and the day before east of UTC; corrected it is always the written day |
| CsvParser.TransformRow | app/lib/csv-parser.ts:130-143 | a row becomes a show exactly when it has date and artist columns, owned by the user, with the stored day of the parsed date, the parsed artists, and the venue, city, state and country cells trimmed or null |
| CsvParser.TransformCsvToShows | app/lib/csv-parser.ts:126-144 | the file transforms exactly when every row has both columns, into one show per row, each as `CsvParser.TransformRow` states |
| CsvParser.RoutesAgreeAtOrWestOfUtc | app/lib/csv-parser.ts:131-132 | at or west of UTC the as-written transform gives the same shows as the corrected one |
| CsvParser.ValidRowsTransform | app/lib/csv-parser.ts:152-175 | after validation, every transformed show has a date |
| CsvParser.ValidRowWithoutArtists | app/lib/csv-parser.ts:68-70 | with any date that parses, a row whose artist cell is only `+` passes validation but yields no artists |
| CsvParser.ParseAndValidateCsv | app/lib/csv-parser.ts:152-183 | success exactly when validation passes, with the transformed shows and row count; failure joins the messages with newlines |
| CsvParser.IsoDay | app/lib/csv-parser.ts:132 | the UTC day of local midnight is a valid day, and at or west of UTC it is the same day |
| CsvParser.IsoDayShiftsEastOfUtc | app/lib/csv-parser.ts:132 | east of UTC, the UTC day of local midnight is the day before |
| CsvParser.NewYearStoredAsNewYearsEve | app/lib/csv-parser.ts:130-132 | a row dated `1-1-24` transformed at UTC+1 is stored as `2023-12-31` as written, and as `2024-01-01` when corrected |
| CsvParser.SingleRowDate | app/lib/csv-parser.ts:130-136 | a one-row file stores the stored day of its date cell |
| Upload.Status | app/app/api/shows/upload/route.ts:12-77 | 401 exactly for unauthenticated callers, 403 exactly for foreign shows, 500 for store and internal errors, and 400 otherwise |
| Upload.Utf16Length | app/app/api/shows/upload/route.ts:42 | the JavaScript length counts two units for characters outside the Basic Multilingual Plane |
| Upload.FirstRejection | app/app/api/shows/upload/route.ts:26-49 | the rejection is that of the first failing show, and there is none exactly when every show passes |
| Upload.AcceptedShowsAreOwnAndShort | app/app/api/shows/upload/route.ts:26-49 | every accepted show belongs to the caller and has string notes of at most 4096 units |
| Upload.Preflight | app/app/api/shows/upload/route.ts:10-24 | the request proceeds exactly when the caller is signed in and `shows` is a non-empty array |
| Upload.HandleUpload | app/app/api/shows/upload/route.ts:8-78 | all shows are stored exactly when the request passes every check and the insert works; otherwise nothing is stored; a 403 names a foreign show |
| UploadProgress.ResolveOne | app/app/api/shows/upload-with-progress/route.ts:88-112 | one show's turn: `none` exactly without a venue; a cached key returns the cached id and status with the table and cache unchanged; a missed key calls the resolver once and caches its answer under the key; no id exactly for `none` or a failed resolution; the venue table and the cache only grow |
| UploadProgress.ResolveOneAgrees | app/app/api/shows/upload-with-progress/route.ts:88-112 | with the corrected key and call, one turn keeps every cached id pointing at an agreeing venue, and its own id names a venue agreeing with the show |
| UploadProgress.CacheLookupMeaning | app/app/api/shows/upload-with-progress/route.ts:89-95 | a lookup misses exactly when no entry has the show's key, and a hit is the answer stored under that key |
| UploadProgress.CacheLookupAppended | app/app/api/shows/upload-with-progress/route.ts:108-111 | after a miss, the answer set under the key is the one the next lookup finds |
| UploadProgress.CacheLookupExtends | app/app/api/shows/upload-with-progress/route.ts:92-95 | a hit stays the same hit while later entries are added |
| UploadProgress.ResolveVenues | app/app/api/shows/upload-with-progress/route.ts:83-113 | one resolution per show; `none` exactly for shows without a venue; a venue id exactly when resolution did not fail; the venue table only grows |
| UploadProgress.CachedShowsReuse | app/app/api/shows/upload-with-progress/route.ts:92-95 | a show whose key is already cached gets exactly the cached id and status |
| UploadProgress.SameKeySameResolution | app/app/api/shows/upload-with-progress/route.ts:89-111 | two shows with the same key get the same id and status: the later one reuses what the earlier one cached |
| UploadProgress.FirstOfKeyReused | app/app/api/shows/upload-with-progress/route.ts:89-111 | every later show with the first show's key gets the first show's id and status |
| UploadProgress.CorrectedVenuesAgree | app/app/api/shows/upload-with-progress/route.ts:88-111 | with the corrected key and call, every venue id points at a stored venue that agrees with the show's own fields |
| UploadProgress.UsaShowFailsAsWritten | app/app/api/shows/upload-with-progress/route.ts:98-102 | as written, an uncached USA show never gets a venue, because the state is never passed |
| UploadProgress.UsaShowResolvesCorrected | app/app/api/shows/upload-with-progress/route.ts:98-102 | passing the state lets a complete USA show resolve |
| UploadProgress.CacheKeyCollision | app/app/api/shows/upload-with-progress/route.ts:89 | as written, two different venues whose fields contain `\|` share a key, and the second show gets the first venue |
| UploadProgress.NotesColumn | app/app/api/shows/upload-with-progress/route.ts:125 | `notes \|\| null` stores notes exactly when they are a non-empty string |
| UploadProgress.ProgressEvents | app/app/api/shows/upload-with-progress/route.ts:129-144 | one progress event per show, numbered from 1, with that show's date, artists, venue and status |
| UploadProgress.ShowRows | app/app/api/shows/upload-with-progress/route.ts:116-126 | one row per show, with the caller's id, date, artists, resolved venue id and notes, and no free-text location |
| UploadProgress.StreamShows | app/app/api/shows/upload-with-progress/route.ts:83-172 | one progress event per show and one closing event; on a failed insert an error and an unchanged table; otherwise a completion and one new row per show, owned by the caller, with a venue id exactly when its venue resolved |
| UploadProgress.HandleUploadWithProgress | app/app/api/shows/upload-with-progress/route.ts:22-203 | the stream opens exactly when every check passes; it sends one progress event per show and then one closing event; the closing event is complete, with every show stored, or an error with nothing stored; a stored show has a venue id exactly when its venue resolved |
| UploadProgress.CorrectedUploadAgrees | app/app/api/shows/upload-with-progress/route.ts:83-172 | with the corrections, every stored venue id names a venue agreeing with that show's fields |
| BulkDelete.ChunkArray | app/app/api/shows/bulk-delete/route.ts:7-13 | the chunks concatenate back to the input, each has 1 to `size` ids, all but the last are full, and their number is the length divided by the size, rounded up |
| BulkDelete.OwnedBound | app/app/api/shows/bulk-delete/route.ts:43-57 | a batch verifies at most as many rows as it has ids, and exactly as many when its ids are distinct and all owned by the caller |
| BulkDelete.VerifiedCountExact | app/app/api/shows/bulk-delete/route.ts:41-58 | the verified count never exceeds the ids sent, and equals it exactly when every batch is fully verified |
| BulkDelete.TightMeansOwned | app/app/api/shows/bulk-delete/route.ts:61-66 | when the count check passes, every requested id exists and belongs to the caller |
| BulkDelete.DistinctOwnedTight | app/app/api/shows/bulk-delete/route.ts:61-66 | distinct owned ids always pass the count check |
| BulkDelete.Status | app/app/api/shows/bulk-delete/route.ts:19-98 | 200 exactly on success, 401 exactly when not signed in, 403 exactly when some show is not owned, and 400 exactly for a missing id list |
| BulkDelete.VerifyBatches | app/app/api/shows/bulk-delete/route.ts:41-58 | the verification stops exactly when a batch query fails, and otherwise returns the owned-row count summed over batches |
| BulkDelete.DeleteBatches | app/app/api/shows/bulk-delete/route.ts:68-86 | a failing batch leaves the earlier batches deleted; success deletes every requested id and counts each distinct id once |
| BulkDelete.HandleBulkDelete | app/app/api/shows/bulk-delete/route.ts:15-99 | only the caller's requested rows are ever deleted; rejections change nothing; a failed delete leaves the earlier batches deleted; success deletes exactly the requested ids; distinct owned ids with no store failure always succeed |
| Pipeline.NullIfEmpty | services/agent/app/services/pipeline.py:26-28 | `x or None` is null exactly for the empty string, and otherwise the string itself |
| Pipeline.ShowsAfter | services/agent/app/services/show_resolver.py:92-110 | the central-show table after resolution only grew, also when resolution raised partway |
| Pipeline.ProcessSingleShow | services/agent/app/services/pipeline.py:16-60 | the order, date, artists, notes and rating are carried over; show ids need a date and a venue; a venue id names a stored venue agreeing with the show; a venue error yields no ids and no change |
| Pipeline.ResolvedShowIds | services/agent/app/services/pipeline.py:32-38 | with a date and a venue, and no artist's count or insert failing, the show ids are absent exactly when no artist is non-empty, and otherwise one per non-empty artist |
| Pipeline.Run | services/agent/app/services/pipeline.py:63-101 | sequential processing of n shows yields n results |
| Pipeline.RunSequential | services/agent/app/services/pipeline.py:85-96 | the i-th result has order i and the i-th show's artists and date, and the tables only grow |
| Pipeline.RunBatch | services/agent/app/services/pipeline.py:85-93 | one batch extends the results of the earlier shows to those of the shows up to the batch end |
| Pipeline.ProcessBatch | services/agent/app/services/pipeline.py:85-96 | processing one batch and yielding its results moves the state from the sequential result before the batch to the one after it |
| Pipeline.ProcessShows | services/agent/app/services/pipeline.py:63-101 | the yielded stream is the sequential result, one per parsed show, in the original order |

## Left out

- Network and I/O are not modelled: HTTP requests, the Clerk session, the Supabase client, and the SSE byte encoding. Each appears as a parameter or an outcome value.
- The OpenStreetMap rate limiter (`app/lib/osm.ts:10-20`) is left out. It only delays requests, using a clock.
- Concurrency is left out: the model serialises each batch in index order. The interleaving of awaits in `asyncio.gather` (`services/agent/app/services/pipeline.py:93`) is not modelled, nor are races between a lookup and the following insert.
- Floating point is left out: `parseFloat` is a parameter, and coordinates and rating numbers are `real`.
- `Calendar.NewDate` does not model the range limit of JavaScript dates (about 275,760 years) or times of day.
- CsvParser.IsoDay: one time-zone offset, a parameter of `CsvParser.DateRoute`, applies to every row of an upload. `parseAndValidateCSV` runs in the uploading user's browser (`app/app/upload/page.tsx:1`, `:51`), so the offset is that user's zone. In a zone with summer time, `new Date` gives a January row and a July row different offsets; that per-date offset is not modelled.
- `CentralShows.PrefixCount`: the `LIKE 'base%'` count is a prefix test. `_` and `%` inside a date or venue id are not treated as wildcards.
- CSV tokenising by PapaParse (`app/lib/csv-parser.ts:10-24`) is left out. Rows arrive as maps from lower-cased header to cell.
- Text is modelled on code points: lower-casing is ASCII-only, and trimming uses a fixed white-space set per language.
- Log messages and error message texts are left out. The only message text kept is the validation text that `CsvParser.ParseAndValidateCsv` returns.
- Venue ids are decimal renderings of positions, not UUIDs. That is why `ShowId.ParseGenerateRoundTrip` takes the five-part venue id as a precondition.
- UploadProgress.ResolveVenues: one `Faults` value applies to every venue resolution within one upload.
- UploadProgress.ResolveOne: the geocoder is a function of the venue parameters, so the two geocoder calls of one `getOrCreateVenueWithStatus` see the same answer. `Venues.GeocodeStatusWithoutCoordinates` covers answers that differ.
- Upload.Preflight: a `null` element of `shows` is not modelled. In the source, reading its `clerk_user_id` throws a TypeError, and the outer `catch` answers 500. The same holds for `UploadProgress.HandleUploadWithProgress`.
- Pipeline.ProcessShows: one geocoder applies to the whole import. Venue faults are given per show index, and central-show faults per show and artist index.
- Pipeline.Step: an index beyond the parsed shows gives a placeholder result. Such an index is never used, because `ProcessShows` requires aligned inputs.
- The outer `catch` of the streaming upload (`route.ts:175-185`) is not modelled. No modelled step throws inside the stream.
- `getCentralShowsByIds` joins the venue row. The model returns only the central show rows.
- Parsing a file with the language model and normalising dates with it (`claude_parser.py`, `date_normalizer.py`) are left out. Both are foreign calls. Their outputs are the inputs of `Pipeline.ProcessShows`.
- VenueResolver.GetOrCreateVenuePy: an empty-string city or state is passed through to the lookup and the stored row as it is. The Python resolver does not normalise empty strings to null, so `VenueResolver.VenueResolversAgree` assumes they are absent or non-empty.

## Findings

| source | as written | input that shows it | evidently intended | confidence | as-written member | corrected member |
|---|---|---|---|---|---|---|
| app/lib/venues.ts:154 | the venue created without a geocode is re-checked with the caller's fields, where the country may be null, but stored with country `Unknown` | two identical requests for a named venue without a country, with the geocoder finding nothing | the re-check uses the fields of the row about to be stored, so the second request finds the first row | not executed; the country column is NOT NULL in `app/types/database.ts` | Venues.MissingCountryDuplicates | Venues.RecheckIdempotent |
| app/lib/rating-validation.ts:150-161 | for an ordered list the result is `indexA - indexB`, so the better label (lower index) compares lower | the list `["great","ok"]` compared as `great` against `ok` gives -1 | the comment at lines 132-136 says a better rating compares greater | not executed | Rating.ListOrderInverted | Rating.CorrectedBetterIsGreater |
| app/lib/csv-parser.ts:132 | the date is built at local midnight and stored as the UTC calendar day | `1-1-24` uploaded from a browser at UTC+1 is stored as `2023-12-31`; every user east of UTC gets the day before | the stored date is the calendar day written in the file | not executed | CsvParser.NewYearStoredAsNewYearsEve | CsvParser.StoredDay |
| app/app/api/shows/upload-with-progress/route.ts:98-102 | the venue resolver is called without the state, and it refuses every USA venue without a state | a show with venue, city, state and country `USA` | the state is passed through, as the upfront validation at lines 64-69 expects | not executed | UploadProgress.UsaShowFailsAsWritten | UploadProgress.UsaShowResolvesCorrected |
| app/app/api/shows/upload-with-progress/route.ts:89 | the venue cache key joins the fields with `\|` | venue `a\|b` without a city, then venue `a` in city `b\|` | distinct venues have distinct cache keys | not executed | UploadProgress.CacheKeyCollision | UploadProgress.CorrectedVenuesAgree |
