# HFR–UCS location sync, modelled in Dafny

The service copies Tanzania's Health Facility Registry (HFR) into the
location hierarchy of an OpenMRS/UCS server. At start-up it fetches every
OpenMRS location page by page, decodes each JSON record into a `Location`
and indexes the nodes by lower-cased uuid and by lower-cased code. Then it
walks two HFR feeds: the facility feed (Region, District, Council, Ward,
Facility, Village) and the administrative hierarchy feed (Country, Zone,
Region, Ward, Village). Each level is resolved by `ensureLocationExists`.
That call finds the node by its code, renames or moves it when needed, or
creates it on the server. The facility feed also realigns the villages
filed under each facility. Finally, hamlets are imported from a CSV
resource.

The project models that core:

| file | module | models |
|---|---|---|
| wrappers.dfy | Wrappers | `Option`, and `Result`, which stands for a Java exception (`Threw(NullPointer)`, `Threw(MissingJsonKey)`, …) |
| strings.dfy | Strings | the `String` methods the code relies on: `toLowerCase`, `equalsIgnoreCase`, `trim`, `isBlank` (ASCII range) |
| capitalize.dfy | Capitalize | `CapitalizeUtil.capitalizeWords` |
| csv_reader.dfy | CsvReader | `CSVReaderUtil.readCsvFromResources` |
| http_util.dfy | HttpUtil | the pure helpers of `HttpUtil` and the request `makeConnection` builds |
| location.dfy | Domain | the `Location` class, as a Dafny class with the same fields |
| remote.dfy | Remote | the OpenMRS/HFR server as a scripted oracle, and the bounded retry loop every remote write uses |
| state.dfy | State | `Main`'s shared state (node list, uuid and code indexes), the cache initialisation loop, `findLocationByCode`/`findLocationByUuid` |
| calls.dfy | Calls | the write helpers of `OpenMrsCallsUtils` and `getOtherLocation` |
| creation.dfy | Creation | `Main.createNewLocation` |
| resolver.dfy | Resolver | `Utils.ensureLocationExists` and `Utils.importHamletLocationsFromCSV` |
| realign.dfy | Realign | `Main.getChildLocation` |
| feeds.dfy | Feeds | `processHfrResponse`, `processAdminHierarchyData`, `fetchHfrData`, `fetchHfrAdminHierarchyData` |
| fetch_helper.dfy | FetchHelper | `FetchLocationsHelper`: `getAllLocations`, `makeLocation`, `getParent` |
| subtree.dfy | Subtree | `OpenmrsLocationService.getLocationsByLevelAndTagsFromAllLocationsList` and its descent |

How the model stands in for what Dafny cannot see:

- **The server is a script.** `Remote.Server` holds a function
  `script: nat -> Reply` and a log `sent` of the requests made. The k-th
  request ever sent gets `script(k)`. A `Reply` is a thrown I/O exception
  (`Failed`) or an answer with a status and the `uuid`/`name` members of
  its body. Every retry loop of the source (`updateLocationName` 10
  attempts, `updateChildLocationParent` 10, `addLocationAttribute` 3,
  `createNewLocation` 10, `fetchHfrData` 200, `fetchHfrAdminHierarchyData`
  3) is `SendWithRetries` with its own bound and its own stop rule
  (`Discipline`). The loop's early `return`/`break` becomes the loop ending
  on `stopped`. What each caller does afterwards is stated with `Attempts`,
  `Stopped` and `LastReply`, pure functions of the script.
- **Exceptions are values.** A Java exception is a `Threw` result, and each
  `try`/`catch` of the source is a test on that result. Null dereferences
  are modelled where the source can reach them: a null tag set in
  `hasTag`, a null parent id, a null name, a missing JSON member read by
  `getString`.
- **JSON is datatypes.** A feed record is a `map<string, string>`;
  `getString` on a missing key throws `MissingJsonKey`. An OpenMRS location
  record is a `LocationRecord` whose members are `Option`s.
- **The drivers walk a level table.** `processHfrResponse` and
  `processAdminHierarchyData` call `ensureLocationExists` once per level in
  straight-line code. The model lists the levels in the constants
  `HfrLevels` and `AdminLevels`: the name members, the code, the tag, and
  which earlier level's result is the parent. Both drivers then walk that
  table. The ghost call log `reg.trace` records each call and its outcome,
  and `Chain`/`ChainEnded` say the calls follow the table in order and stop
  at the first exception.
- **The subtree query works on snapshots.**
  `getLocationsByLevelAndTagsFromAllLocationsList` reads nodes and never
  changes them, so it is modelled on value snapshots (`Subtree.Entry`).
  The result is a list of positions in the node list; a node appears once
  for every queried tag it carries. The model's recursions need an
  acyclic hierarchy, so the query takes a ghost ranking `depth` and
  requires `Ranked`. The source only overflows its stack on a cycle the
  query reaches; `Ranked` also excludes the cycles it does not reach.
- **The page walk is bounded.** `getAllLocations` retries a failing page
  without bound. The model gives it `fuel` requests at most.

The model follows the code where the code's own documentation disagrees. The
header comment of `readCsvFromResources` (CSVReaderUtil.java line 15)
lists twelve columns, including a street code and name. The code
(lines 51–60) reads ten: it stores columns 6 and 7 as the village and
columns 8 and 9 as the hamlet. It also accepts a nine-field line at the
length check and then reads `values[9]`, which throws. `ReadCsv` models
the code as written. `ColumnShiftAsWritten` and `NineFieldLineAborts`
state where it departs from the documented layout, which
`ReadCsvDocumented` models.

## Model

| member | source | states |
|---|---|---|
| Strings.ToLower | src/main/java/tz/go/moh/ucs/util/Utils.java:88-97 | lower-casing keeps the length of the key the indexes are looked up by |
| Strings.ToLowerChars | src/main/java/tz/go/moh/ucs/util/Utils.java:88-97 | `toLowerCase` lower-cases each character on its own |
| Strings.ToUpperChars | src/main/java/tz/go/moh/ucs/util/CapitalizeUtil.java:26-30 | `toUpperCase` upper-cases each character on its own |
| Strings.TrimSlice | src/main/java/tz/go/moh/ucs/util/Utils.java:33 | `trim` keeps one contiguous slice of the input, and neither end of it is trimmable |
| Strings.TrimIdempotent | src/main/java/tz/go/moh/ucs/util/CSVReaderUtil.java:51-60 | trimming a trimmed string changes nothing |
| Capitalize.RemoveQuotesChars | src/main/java/tz/go/moh/ucs/util/CapitalizeUtil.java:17 | the quote removal leaves no `"` and adds no character |
| Capitalize.RunLength | src/main/java/tz/go/moh/ucs/util/CapitalizeUtil.java:20 | the leading run that `split("\\s+")` cuts off: no `\s` inside it, a `\s` right after it |
| Capitalize.CapWordChars | src/main/java/tz/go/moh/ucs/util/CapitalizeUtil.java:25-31 | a word of at most two characters is upper-cased whole; a longer one gets an upper-case first character and lower-case rest |
| Capitalize.CapitalizeWords | src/main/java/tz/go/moh/ucs/util/CapitalizeUtil.java:11-37 | null and "" come back unchanged; any other input gives `Capitalized(input)`, proved through the builder loop's invariant |
| Capitalize.WordsAreWords | src/main/java/tz/go/moh/ucs/util/CapitalizeUtil.java:20 | every piece of the split is non-empty, free of `\s`, and made of input characters |
| Capitalize.CapitalizedHasNoQuotes | src/main/java/tz/go/moh/ucs/util/CapitalizeUtil.java:17-36 | the result never contains a double quote |
| Capitalize.CapitalizedSpacing | src/main/java/tz/go/moh/ucs/util/CapitalizeUtil.java:20-36 | the result has no leading or trailing whitespace, and every inner whitespace is one plain space between words |
| Capitalize.WordsOfJoin | src/main/java/tz/go/moh/ucs/util/CapitalizeUtil.java:20 | splitting words joined by single spaces gives the words back |
| Capitalize.TrimBuiltIsJoin | src/main/java/tz/go/moh/ucs/util/CapitalizeUtil.java:23-36 | the trimmed builder is the capitalised words joined by single spaces |
| Capitalize.CapitalizedIsJoinedWords | src/main/java/tz/go/moh/ucs/util/CapitalizeUtil.java:11-37 | without control characters, the result is the capitalised words of the quote-free input, same count and order |
| Capitalize.CapWordIdempotent | src/main/java/tz/go/moh/ucs/util/CapitalizeUtil.java:26-30 | re-capitalising a capitalised word changes nothing |
| Capitalize.JoinedCapitalsAreFixed | src/main/java/tz/go/moh/ucs/util/CapitalizeUtil.java:11-37 | joined capitalised words are a fixed point of capitalizeWords |
| Capitalize.CapitalizedIdempotent | src/main/java/tz/go/moh/ucs/util/CapitalizeUtil.java:11-37 | without control characters, capitalizeWords is idempotent |
| Capitalize.DocumentedExample | src/main/java/tz/go/moh/ucs/util/CapitalizeUtil.java:5-10 | the documented example `"Kombo ""A""" - Nkoaranga` becomes `Kombo A - Nkoaranga` |
| Capitalize.CapitalizedExample | src/main/java/tz/go/moh/ucs/util/CapitalizeUtil.java:11-37 | `"aBC" d` becomes `Abc D` |
| Capitalize.ControlCharacterBreaksIdempotence | src/main/java/tz/go/moh/ucs/util/CapitalizeUtil.java:20-36 | a leading U+0001 (trimmed but not `\s`) gives `ab` on one pass and `AB` on the next |
| CsvReader.Pieces | src/main/java/tz/go/moh/ucs/util/CSVReaderUtil.java:43 | the text between commas: at least one piece |
| CsvReader.DropTrailingEmpty | src/main/java/tz/go/moh/ucs/util/CSVReaderUtil.java:43 | `split` drops exactly the trailing empty pieces and keeps the rest in order |
| CsvReader.ReadCsvFromResources | src/main/java/tz/go/moh/ucs/util/CSVReaderUtil.java:22-68 | the line loop returns `ReadCsv(resource)`: a missing resource is an IOException, the header is skipped, rows keep file order |
| CsvReader.HeaderIgnored | src/main/java/tz/go/moh/ucs/util/CSVReaderUtil.java:37-40 | the header line never affects the result |
| CsvReader.ShortLineSkipped | src/main/java/tz/go/moh/ucs/util/CSVReaderUtil.java:44-47 | a line with fewer than nine fields is skipped |
| CsvReader.RowsFromAppend | src/main/java/tz/go/moh/ucs/util/CSVReaderUtil.java:35-63 | the rows of two runs of lines are the first run's rows followed by the second's, unless the first throws |
| CsvReader.RowsFromThrowsIff | src/main/java/tz/go/moh/ucs/util/CSVReaderUtil.java:44-60 | the read throws `IndexOutOfBounds` exactly when some line has exactly nine fields |
| CsvReader.RowsFromSource | src/main/java/tz/go/moh/ucs/util/CSVReaderUtil.java:43-62 | each row is the mapping of one line with at least ten fields; no more rows than lines |
| CsvReader.FieldsTrimmed | src/main/java/tz/go/moh/ucs/util/CSVReaderUtil.java:51-60 | every stored field is trimmed, and the street fields stay null |
| CsvReader.SplitJoinRoundTrip | src/main/java/tz/go/moh/ucs/util/CSVReaderUtil.java:43 | `split(",")` recovers comma-free fields from their join when the last field is not empty |
| CsvReader.ReadCsvDocumented | src/main/java/tz/go/moh/ucs/util/CSVReaderUtil.java:13-16 | a reader with the documented twelve-column layout never throws on a present resource |
| CsvReader.DocumentedRowRoundTrip | src/main/java/tz/go/moh/ucs/util/CSVReaderUtil.java:13-16 | the documented layout puts every column of a well-formed line in its field |
| CsvReader.ColumnShiftAsWritten | src/main/java/tz/go/moh/ucs/util/CSVReaderUtil.java:51-60 | the code stores the street columns as the village and the village columns as the hamlet |
| CsvReader.NineFieldLineAborts | src/main/java/tz/go/moh/ucs/util/CSVReaderUtil.java:44-60 | a nine-field line anywhere makes the whole read throw; the documented reader does not |
| HttpUtil.CheckSuccessBasedOnHttpCode | src/main/java/tz/go/moh/ucs/util/HttpUtil.java:108-114 | false exactly when 400 ≤ code ≤ 599 (a 4xx or 5xx code); every other code is a success |
| HttpUtil.RemoveEndingSlash | src/main/java/tz/go/moh/ucs/util/HttpUtil.java:151-153 | one trailing `/` is removed; anything else is returned as is |
| HttpUtil.RemoveTrailingSlash | src/main/java/tz/go/moh/ucs/util/HttpUtil.java:155-157 | despite its name, one leading `/` is removed |
| HttpUtil.EndingSlashRoundTrip | src/main/java/tz/go/moh/ucs/util/HttpUtil.java:151-153 | adding a slash and removing it gives the string back; only one slash goes |
| HttpUtil.TrailingSlashIsLeading | src/main/java/tz/go/moh/ucs/util/HttpUtil.java:155-157 | a trailing slash is kept; a leading one is removed |
| HttpUtil.EncodeSpaces | src/main/java/tz/go/moh/ucs/util/HttpUtil.java:123 | the encoded URL has no space and is no shorter |
| HttpUtil.SpacesRoundTrip | src/main/java/tz/go/moh/ucs/util/HttpUtil.java:123 | decoding `%20` undoes the encoding when the input has no `%` |
| HttpUtil.BuildUrl | src/main/java/tz/go/moh/ucs/util/HttpUtil.java:120-123 | the built URL holds no space |
| HttpUtil.BuildUrlDecodes | src/main/java/tz/go/moh/ucs/util/HttpUtil.java:120-123 | the URL decodes to the base without its final slash, plus `?payload` unless the payload is blank |
| HttpUtil.AuthHeader | src/main/java/tz/go/moh/ucs/util/HttpUtil.java:139-145 | an Authorization header is added exactly when there is an auth type |
| HttpUtil.MakeConnection | src/main/java/tz/go/moh/ucs/util/HttpUtil.java:116-149 | throws `URISyntaxException` exactly when the built URL does not parse as a URI; otherwise the request has the verb and the built URL, `Accept-Charset: UTF-8` first, then the Authorization header if any |
| HttpUtil.IllegalBaseThrows | src/main/java/tz/go/moh/ucs/util/HttpUtil.java:123-124 | a base URL holding a character no URI may hold (such as `"` or `{`) makes the call throw `URISyntaxException`, since the space encoding keeps it |
| HttpUtil.UserPasswordEncoded | src/main/java/tz/go/moh/ucs/util/HttpUtil.java:42-44 | `user:password` credentials are Base64-encoded under Basic |
| HttpUtil.GetWithTokenUsesBasic | src/main/java/tz/go/moh/ucs/util/HttpUtil.java:83-85 | getWithToken sends its token under Basic, unencoded when it has no `:`, never under Token |
| Domain.Location.Empty | src/main/java/tz/go/moh/ucs/domain/Location.java:29 | the no-argument constructor leaves every field null |
| Domain.Location.WithParent | src/main/java/tz/go/moh/ucs/domain/Location.java:32-37 | the four-argument constructor sets id, name and parent; the rest stays null |
| Domain.Location.constructor | src/main/java/tz/go/moh/ucs/domain/Location.java:39-48 | the full constructor stores each argument in its field |
| Domain.Location.SetLocationId | src/main/java/tz/go/moh/ucs/domain/Location.java:54-56 | only the id changes |
| Domain.Location.SetName | src/main/java/tz/go/moh/ucs/domain/Location.java:62-64 | only the name changes |
| Domain.Location.SetIdentifiers | src/main/java/tz/go/moh/ucs/domain/Location.java:80-82 | only the identifier map changes |
| Domain.Location.SetParentLocation | src/main/java/tz/go/moh/ucs/domain/Location.java:104-106 | only the parent changes |
| Domain.Location.SetTags | src/main/java/tz/go/moh/ucs/domain/Location.java:118-120 | only the tag set changes |
| Domain.Location.SetAttributes | src/main/java/tz/go/moh/ucs/domain/Location.java:148-150 | only the attribute map changes |
| Domain.Location.GetIdentifier | src/main/java/tz/go/moh/ucs/domain/Location.java:84-86 | the stored value, or null exactly when the type is absent |
| Domain.Location.GetAttribute | src/main/java/tz/go/moh/ucs/domain/Location.java:152-154 | the stored value, or null exactly when the name is absent |
| Domain.Location.AddIdentifier | src/main/java/tz/go/moh/ucs/domain/Location.java:88-94 | a null map becomes a new one; the entry is stored and read back; nothing else changes |
| Domain.Location.RemoveIdentifier | src/main/java/tz/go/moh/ucs/domain/Location.java:96-98 | that one key goes and reads back null |
| Domain.Location.AddTag | src/main/java/tz/go/moh/ucs/domain/Location.java:126-132 | a null set becomes a new one; the tag is added and `hasTag` then holds |
| Domain.Location.RemoveTag | src/main/java/tz/go/moh/ucs/domain/Location.java:134-136 | reports whether the tag was there; afterwards `hasTag` fails |
| Domain.Location.AddAttribute | src/main/java/tz/go/moh/ucs/domain/Location.java:156-162 | a null map becomes a new one; the entry is stored and read back |
| Domain.Location.RemoveAttribute | src/main/java/tz/go/moh/ucs/domain/Location.java:164-166 | that one key goes; every other key reads as before |
| Domain.Location.WithLocationId | src/main/java/tz/go/moh/ucs/domain/Location.java:168-171 | sets the id and returns the same node |
| Domain.Location.WithName | src/main/java/tz/go/moh/ucs/domain/Location.java:173-176 | sets the name and returns the same node |
| Domain.Location.WithIdentifier | src/main/java/tz/go/moh/ucs/domain/Location.java:183-190 | adds the identifier and returns the same node |
| Domain.Location.WithParentLocation | src/main/java/tz/go/moh/ucs/domain/Location.java:192-195 | sets the parent and returns the same node |
| Domain.Location.WithTag | src/main/java/tz/go/moh/ucs/domain/Location.java:198-205 | adds the tag and returns the same node |
| Domain.Location.WithAttribute | src/main/java/tz/go/moh/ucs/domain/Location.java:207-214 | adds the attribute and returns the same node |
| Remote.Attempts | src/main/java/tz/go/moh/ucs/util/OpenMrsCallsUtils.java:216-238 | a retry loop makes between one and `max` attempts |
| Remote.AttemptsIsFirstStop | src/main/java/tz/go/moh/ucs/util/OpenMrsCallsUtils.java:216-238 | the attempts run up to and including the first stopping reply, capped at `max` |
| Remote.OneAttemptWhenFirstStops | src/main/java/tz/go/moh/ucs/util/OpenMrsCallsUtils.java:229-231 | a first reply that stops the loop means exactly one attempt |
| Remote.AllAttemptsWhenNoneStops | src/main/java/tz/go/moh/ucs/util/OpenMrsCallsUtils.java:218-239 | with no stopping reply every attempt is made and the loop does not stop |
| Remote.Server.Send | src/main/java/tz/go/moh/ucs/util/OpenMrsCallsUtils.java:220-227 | one request is logged and gets the next scripted reply |
| Remote.Server.TryOnce | src/main/java/tz/go/moh/ucs/util/OpenMrsCallsUtils.java:219-237 | one attempt of a retry loop, tied to the attempt count |
| Remote.Server.SendWithRetries | src/main/java/tz/go/moh/ucs/util/OpenMrsCallsUtils.java:216-239 | the log grows by `Attempts` copies of the request; `stopped` iff a reply stopped the loop, and that reply is returned |
| State.GetString | src/main/java/tz/go/moh/ucs/Main.java:129 | `getString` gives the member exactly when it is present, else `MissingJsonKey` |
| State.CodeKey | src/main/java/tz/go/moh/ucs/Main.java:48-52 | reading a node's code throws only `NullPointer` (from `hasTag` on a null tag set) |
| State.IndexCrashIff | src/main/java/tz/go/moh/ucs/Main.java:45-54 | the index loop throws exactly when some node has an id, a code attribute and a null tag set |
| State.IndexValuesFrom | src/main/java/tz/go/moh/ucs/Main.java:45-54 | every indexed node was indexed before or is in the list |
| State.IdIndexKeepsLatest | src/main/java/tz/go/moh/ucs/Main.java:46-47 | among nodes sharing an id ignoring case, the last one wins |
| State.IdIndexUntouched | src/main/java/tz/go/moh/ucs/Main.java:46-47 | a key no node is filed under keeps its entry |
| State.CodeIndexKeepsLatest | src/main/java/tz/go/moh/ucs/Main.java:48-52 | the code index keeps the last node with each code: Code for ordinary nodes, HFR Code for facilities |
| State.CodeIndexUntouched | src/main/java/tz/go/moh/ucs/Main.java:48-52 | a code no node is filed under keeps its entry |
| State.Registry.constructor | src/main/java/tz/go/moh/ucs/Main.java:27-42 | the fetched nodes with both indexes empty |
| State.Registry.FindLocationByCode | src/main/java/tz/go/moh/ucs/util/Utils.java:88-91 | null for a null code; otherwise the code index at the lower-cased code |
| State.Registry.FindLocationByUuid | src/main/java/tz/go/moh/ucs/util/Utils.java:94-97 | null for a null id; otherwise the id index at the lower-cased id |
| State.Registry.IndexOne | src/main/java/tz/go/moh/ucs/Main.java:46-53 | one turn of the index loop is `IndexStep` |
| State.Registry.InitializeCaches | src/main/java/tz/go/moh/ucs/Main.java:45-54 | the loop leaves the indexes `IndexAll` gives and throws only `NullPointer`; every indexed node stays listed |
| Calls.UpdateLocationName | src/main/java/tz/go/moh/ucs/util/OpenMrsCallsUtils.java:215-240 | up to 10 attempts; 200 iff one was accepted, and only then is the name set; otherwise -1 and the node is untouched |
| Calls.UpdateChildLocationParent | src/main/java/tz/go/moh/ucs/util/OpenMrsCallsUtils.java:171-197 | up to 10 attempts; on acceptance the parent becomes the id-index lookup of the new id; otherwise nothing changes |
| Calls.AddLocationAttribute | src/main/java/tz/go/moh/ucs/util/OpenMrsCallsUtils.java:131-166 | up to 3 attempts; on acceptance the value goes under HFR Code or Code and the code index files the node at the lower-cased value |
| Calls.UpdateOrCreateLocationAttribute | src/main/java/tz/go/moh/ucs/util/OpenMrsCallsUtils.java:49-58 | an existing Code is never overwritten and nothing is sent; otherwise as addLocationAttribute |
| Calls.VisitOtherLocation | src/main/java/tz/go/moh/ucs/util/OpenMrsCallsUtils.java:29-41 | for one node: throws exactly in `OtherVisitThrows`; only a matching village changes, only in its name, and only renames to `village` are sent |
| Calls.RenamesChain | src/main/java/tz/go/moh/ucs/util/OpenMrsCallsUtils.java:28-43 | two stretches of renames to the same name make one |
| Calls.GetOtherLocation | src/main/java/tz/go/moh/ucs/util/OpenMrsCallsUtils.java:27-44 | only matching villages under the facility change, only in their name; the indexes stay; the only requests are renames to `village`; a village whose name changed was due a rename and now holds `village`; when no exception ends the loop, every matching village whose name differs from `village` ignoring case has been sent the rename, and when moreover every reply from the call's start is a 200 it now holds `village` |
| Calls.VisitOtherNext | src/main/java/tz/go/moh/ucs/util/OpenMrsCallsUtils.java:28-42 | one turn of the loop: nodes not yet reached keep their names, and every reached village due a rename has been sent it and, when every reply from the walk's start is a 200, holds `village` |
| Creation.CreateNewLocation | src/main/java/tz/go/moh/ucs/Main.java:180-257 | one request per attempt; a fresh node exactly when a 200/201 answer carried uuid and name; tags, filed attributes and looked-up parent as the source sets them |
| Creation.RejectedCreateIsNotRetried | src/main/java/tz/go/moh/ucs/Main.java:248-251 | an answer other than 200/201 ends the create at once with null |
| Creation.CreateGivesUpAfterTenThrows | src/main/java/tz/go/moh/ucs/Main.java:181-256 | ten throws use up the attempts and give null |
| Creation.MalformedAnswerIsRetried | src/main/java/tz/go/moh/ucs/Main.java:225-228 | a 201 whose body lacks the uuid is retried, and the next answer decides |
| Creation.SingleAttributeFiled | src/main/java/tz/go/moh/ucs/Main.java:230-239 | the one-entry map the resolver sends is filed under Code or HFR Code with the code as value |
| Resolver.CodeAttributeType | src/main/java/tz/go/moh/ucs/util/Utils.java:61-64 | a new node's code goes under one of the two configured attribute types |
| Resolver.RenameIfNeeded | src/main/java/tz/go/moh/ucs/util/Utils.java:33-35 | a rename is sent only when the trimmed names differ, and the name changes only if it was accepted |
| Resolver.ReparentIfNeeded | src/main/java/tz/go/moh/ucs/util/Utils.java:36-42 | the node is moved per `ParentDecision`; a null parent id throws `NullPointer` |
| Resolver.UpdateMatched | src/main/java/tz/go/moh/ucs/util/Utils.java:32-42 | rename then reparent; throws iff the parent id is null; a settled node sends nothing |
| Resolver.ResolveExisting | src/main/java/tz/go/moh/ucs/util/Utils.java:30-51 | the found node is returned unless `FoundThrows`; a tag mismatch or settled node sends nothing; under an accepting server the node ends settled |
| Resolver.CreateMissing | src/main/java/tz/go/moh/ucs/util/Utils.java:59-84 | a created node is listed and indexed by id and code; under an accepting server it is created with the requested name |
| Resolver.CreateNode | src/main/java/tz/go/moh/ucs/util/Utils.java:59-68 | the create carries the single tag, the code under its type and the parent id |
| Resolver.IndexCreated | src/main/java/tz/go/moh/ucs/util/Utils.java:70-80 | the node is appended to the list and filed under its lower-cased id and its Code (else its HFR Code) |
| Resolver.ResolveHit | src/main/java/tz/go/moh/ucs/util/Utils.java:29-51 | a code hit returns the indexed node, creates nothing and changes no index |
| Resolver.ResolveMiss | src/main/java/tz/go/moh/ucs/util/Utils.java:53-84 | a miss without a parent returns null unless the tag is Region ignoring case; otherwise the node is created and indexed |
| Resolver.EnsureLocationExists | src/main/java/tz/go/moh/ucs/util/Utils.java:23-85 | no code: null and nothing sent; hit: resolved and never created; miss: the orphan rule, else created; the result is indexed or fresh |
| Resolver.RecordedEnsure | src/main/java/tz/go/moh/ucs/util/Utils.java:23-85 | ensureLocationExists with its call and outcome appended to the call record |
| Resolver.EnsureTwice | src/main/java/tz/go/moh/ucs/util/Utils.java:23-85 | repeating a call that went through returns the same node and sends nothing more |
| Resolver.RowVillage | src/main/java/tz/go/moh/ucs/util/Utils.java:112-115 | a row's village is found exactly when its code is non-empty and indexed |
| Resolver.ImportHamletRows | src/main/java/tz/go/moh/ucs/util/Utils.java:109-126 | each row in order makes its resolver call, if any; a throwing row does not stop the loop |
| Resolver.ImportRow | src/main/java/tz/go/moh/ucs/util/Utils.java:111-124 | one row: the village lookup, then the resolve of "hamlet - village - ward" capitalised under it |
| Resolver.ImportHamletLocationsFromCsv | src/main/java/tz/go/moh/ucs/util/Utils.java:102-127 | a missing resource is logged and nothing happens; a reader exception escapes; otherwise the rows are imported |
| Resolver.ThrowingRowsDoNotStopImport | src/main/java/tz/go/moh/ucs/util/Utils.java:110-125 | when every resolve throws, the index never changes and every eligible row still makes its call |
| Resolver.HamletCallsShape | src/main/java/tz/go/moh/ucs/util/Utils.java:117-118 | every call is tagged Hamlet, hangs under a village, carries the row's hamlet code; at most one per row |
| Realign.RenameVillage | src/main/java/tz/go/moh/ucs/Main.java:166 | the village's name is set iff the rename was accepted (200), else -1 |
| Realign.AddVillageCode | src/main/java/tz/go/moh/ucs/Main.java:168 | the Code is added only when the village has none |
| Realign.ReparentVillage | src/main/java/tz/go/moh/ucs/Main.java:169 | the village moves under the facility's parent when the move is accepted |
| Realign.RelinkVillage | src/main/java/tz/go/moh/ucs/Main.java:168-169 | the Code write, then the move, with the log and node fields they leave |
| Realign.RelinkRenamed | src/main/java/tz/go/moh/ucs/Main.java:167-170 | after an accepted rename, a missing Village_Code throws before anything is sent; otherwise the village is relinked |
| Realign.RenameAndRelink | src/main/java/tz/go/moh/ucs/Main.java:164-171 | only a 200 rename leads to the relink (the helper never returns 201) |
| Realign.VisitChild | src/main/java/tz/go/moh/ucs/Main.java:159-173 | one node: throws exactly as the source does; nodes other than renamed villages are untouched |
| Realign.VisitLogRealigns | src/main/java/tz/go/moh/ucs/Main.java:164-170 | a village's visit sends only renames, Code writes and moves for that record |
| Realign.RealignedTwice | src/main/java/tz/go/moh/ucs/Main.java:158-174 | two rounds of realignment are one |
| Realign.VisitChecked | src/main/java/tz/go/moh/ucs/Main.java:159-173 | a visit realigns a target and leaves any node it does not rename as it was; a village due a rename is sent it, and when every reply from the visit's start is a 200 and it does not throw, the village holds `village - ward`, the facility's parent, and the Village_Code unless it had a Code |
| Realign.VisitKept | src/main/java/tz/go/moh/ucs/Main.java:159-173 | one turn of the loop: every other target is unchanged, the visited node changes only if it is renamed, the log only grows, and a village due a rename has been sent it; when every reply from the turn's start is a 200 and it does not throw, that village holds `village - ward`, the facility's parent, and the Village_Code unless it had a Code |
| Realign.VisitNext | src/main/java/tz/go/moh/ucs/Main.java:158-174 | one turn of the loop keeps the walk's invariant: unreached villages are as they were, and every reached village due a rename has been sent it; only the visited node may change, only if it is renamed, and when every reply from the turn's start is a 200 and it does not throw, it holds `village - ward`, the facility's parent, and the Village_Code unless it had a Code |
| Realign.WalkTurn | src/main/java/tz/go/moh/ucs/Main.java:158-174 | one turn keeps, when every reply from the walk's start is a 200 and no visit threw, that every reached village due a rename holds `village - ward`, the facility's parent, and the Village_Code unless it had a Code |
| Realign.SettledStep | src/main/java/tz/go/moh/ucs/Main.java:158-174 | that property carries over one visit, including a second visit of the same village, which no longer differs from `village - ward` and so is not renamed again |
| Realign.AcceptedVisit | src/main/java/tz/go/moh/ucs/Main.java:164-171 | when every reply is a 200, the rename is accepted at its first attempt, the Code write follows exactly when the village had no Code, and the reparent follows whenever the record has a Village_Code |
| Realign.WalkChildren | src/main/java/tz/go/moh/ucs/Main.java:158-174 | the loop over all nodes keeps the walk's invariant; when no exception ends it, every village child due a rename has been sent it, and when moreover every reply from its start is a 200, holds `village - ward`, the facility's parent, and the Village_Code unless it had a Code |
| Realign.GetChildLocation | src/main/java/tz/go/moh/ucs/Main.java:157-175 | only village children of the facility change (name, Code, parent); the log grows only by their requests; the code index changes at most at the record's Village_Code; a village whose name already matches `village - ward` ignoring case is unchanged; a village that moved or gained a Code now holds exactly that name, which differs from its old one; when no exception ends the loop, every village due a rename has been sent it, and when moreover every reply from the call's start is a 200, it holds `village - ward` and the facility's parent, and has gained the Village_Code unless it already had a Code |
| Feeds.JoinedName | src/main/java/tz/go/moh/ucs/Main.java:115-116 | members joined by " - " exactly when all are present, else `MissingJsonKey` |
| Feeds.LevelArgs | src/main/java/tz/go/moh/ucs/Main.java:132-136 | a level's name and code read from the record, or the exception for a missing member |
| Feeds.ChainCallAt | src/main/java/tz/go/moh/ucs/Main.java:132-147 | each call of a chain is its level's call under its parent level's result, after non-throwing calls |
| Feeds.JoinedTwo | src/main/java/tz/go/moh/ucs/Main.java:135 | two members are joined with " - " |
| Feeds.JoinedThree | src/main/java/tz/go/moh/ucs/Main.java:147 | three members are joined with " - " |
| Feeds.HfrRegionFirst | src/main/java/tz/go/moh/ucs/Main.java:132 | the facility chain opens with the Region, no parent, by Region_Code |
| Feeds.HfrParentIsPreviousResult | src/main/java/tz/go/moh/ucs/Main.java:133-136 | down to the facility, each level hangs under the previous level's node |
| Feeds.HfrWardAndFacilityNames | src/main/java/tz/go/moh/ucs/Main.java:135-136 | the ward is "ward - council" and the facility "Name - Fac_IDNumber" with code Fac_IDNumber |
| Feeds.HfrVillageUnderWard | src/main/java/tz/go/moh/ucs/Main.java:139-147 | the village is resolved under the ward, after a non-null facility |
| Feeds.RegionTagIgnoringCase | src/main/java/tz/go/moh/ucs/util/Utils.java:53 | the Region test ignores case |
| Feeds.AdminOpening | src/main/java/tz/go/moh/ucs/Main.java:112-113 | the hierarchy chain opens with Country (code TZ, no parent), then Zone under it |
| Feeds.AdminMissingCountry | src/main/java/tz/go/moh/ucs/Main.java:112-113 | an unindexed TZ gives a null Country, so the Zone has no parent and is not created |
| Feeds.AdminMissingWard | src/main/java/tz/go/moh/ucs/Main.java:115-116 | an unindexed ward code gives a null Ward (never created without a parent), so the Village has none |
| Feeds.EnsureLevel | src/main/java/tz/go/moh/ucs/Main.java:132-136 | a missing member throws before any call; otherwise one recorded call |
| Feeds.ChainStep | src/main/java/tz/go/moh/ucs/Main.java:132-136 | the next level extends the chain, or the chain ends there |
| Feeds.ChainsOrdered | src/main/java/tz/go/moh/ucs/Main.java:112-147 | every level hangs under an earlier level or none |
| Feeds.LevelStep | src/main/java/tz/go/moh/ucs/Main.java:132-136 | one level, with the code index and the orphan rule carried along |
| Feeds.ResolveLevels | src/main/java/tz/go/moh/ucs/Main.java:132-136 | the levels in order under their parents' results; the first exception ends the record; no orphan but a Region is created |
| Feeds.ProcessAdminRecord | src/main/java/tz/go/moh/ucs/Main.java:110-119 | one hierarchy record's calls follow the chain to its end |
| Feeds.CacheFromValues | src/main/java/tz/go/moh/ucs/Main.java:139-145 | realignment indexes only nodes that were indexed or are realigned villages |
| Feeds.RealignVillages | src/main/java/tz/go/moh/ucs/Main.java:139-145 | getChildLocation runs iff the facility has a parent; otherwise nothing is sent |
| Feeds.VillageCloses | src/main/java/tz/go/moh/ucs/Main.java:147 | after the Village step the record's calls are complete |
| Feeds.FacilityTail | src/main/java/tz/go/moh/ucs/Main.java:139-147 | the realignment, then the Village call, closing the chain |
| Feeds.ProcessHfrRecord | src/main/java/tz/go/moh/ucs/Main.java:128-150 | one facility record's calls follow the chain; a null facility ends it |
| Feeds.ProcessHfrResponse | src/main/java/tz/go/moh/ucs/Main.java:126-152 | every record is processed unless one lacks Fac_IDNumber, which ends the page with that exception |
| Feeds.ProcessAdminHierarchyData | src/main/java/tz/go/moh/ucs/Main.java:108-121 | every record is processed; along the page no orphan but a Region is created |
| Feeds.FetchHfrData | src/main/java/tz/go/moh/ucs/Main.java:69-83 | up to 200 attempts, stopping at the first that does not throw |
| Feeds.FetchHfrAdminHierarchyData | src/main/java/tz/go/moh/ucs/Main.java:88-102 | up to 3 attempts, stopping at the first that does not throw |
| Feeds.FetchStopsAtFirstSuccess | src/main/java/tz/go/moh/ucs/Main.java:71-82 | every attempt before the last threw, and the fetch went through iff it stopped early |
| Feeds.FetchGivesUp | src/main/java/tz/go/moh/ucs/Main.java:77-80 | a fetch that always throws is tried `max` times and ends without raising |
| FetchHelper.IndexOf | src/main/java/tz/go/moh/ucs/util/FetchLocationsHelper.java:74 | the first position of the character, or -1 when it is absent |
| FetchHelper.SplitDisplayRoundTrip | src/main/java/tz/go/moh/ucs/util/FetchLocationsHelper.java:73-74 | "key: value" with no ':' in the key splits into key and value |
| FetchHelper.SplitDisplayParts | src/main/java/tz/go/moh/ucs/util/FetchLocationsHelper.java:73-74 | a display that splits is key, ':', one skipped character, value |
| FetchHelper.SplitDisplayFails | src/main/java/tz/go/moh/ucs/util/FetchLocationsHelper.java:74 | the split throws iff there is no ':' or it is the last character |
| FetchHelper.TagSetContents | src/main/java/tz/go/moh/ucs/util/FetchLocationsHelper.java:61-65 | the tags decode iff every entry has a display; the set is null for no entries, else exactly the displays |
| FetchHelper.AttributeMapContents | src/main/java/tz/go/moh/ucs/util/FetchLocationsHelper.java:67-77 | the map is null iff every entry is voided; each key holds its last non-voided value |
| FetchHelper.Ancestry | src/main/java/tz/go/moh/ucs/util/FetchLocationsHelper.java:86-97 | the chain of parent records is empty iff there is no parent |
| FetchHelper.GetParent | src/main/java/tz/go/moh/ucs/util/FetchLocationsHelper.java:86-97 | succeeds iff every parent record has uuid and display; builds fresh nodes mirroring the chain |
| FetchHelper.MakeLocation | src/main/java/tz/go/moh/ucs/util/FetchLocationsHelper.java:56-80 | succeeds iff `Decode` does: a fresh node with uuid, name, decoded tags and attributes, and the mirrored parent chain |
| FetchHelper.AddTags | src/main/java/tz/go/moh/ucs/util/FetchLocationsHelper.java:61-65 | the tag loop leaves `TagSet` of the entries, or its exception |
| FetchHelper.AddAttributes | src/main/java/tz/go/moh/ucs/util/FetchLocationsHelper.java:67-77 | the attribute loop leaves `AttributeMap` of the entries, or its exception |
| FetchHelper.TagSetPrefix | src/main/java/tz/go/moh/ucs/util/FetchLocationsHelper.java:63-65 | a throwing prefix decides the whole tag list |
| FetchHelper.AttributeMapPrefix | src/main/java/tz/go/moh/ucs/util/FetchLocationsHelper.java:69-76 | a throwing prefix decides the whole attribute list |
| FetchHelper.NextRuleCases | src/main/java/tz/go/moh/ucs/util/FetchLocationsHelper.java:41-42 | the next page is asked for iff there are two links or the first is "next"; an empty array or missing rel throws |
| FetchHelper.DecodedPrefix | src/main/java/tz/go/moh/ucs/util/FetchLocationsHelper.java:38-40 | the records decoded before the first that throws |
| FetchHelper.Walk | src/main/java/tz/go/moh/ucs/util/FetchLocationsHelper.java:25-54 | the walk makes at most `fuel` requests and ends only after one |
| FetchHelper.WalkStarts | src/main/java/tz/go/moh/ucs/util/FetchLocationsHelper.java:42-51 | start indexes are multiples of 100 from 0, rising by 100 after a next page and staying put after a retry |
| FetchHelper.RetryRepeatsRecords | src/main/java/tz/go/moh/ucs/util/FetchLocationsHelper.java:38-51 | a page throwing at record k twice adds its first k records twice |
| FetchHelper.HandlePage | src/main/java/tz/go/moh/ucs/util/FetchLocationsHelper.java:32-52 | one page: the decoded prefix as fresh built nodes, and `Handle`'s next step |
| FetchHelper.GetAllLocations | src/main/java/tz/go/moh/ucs/util/FetchLocationsHelper.java:25-54 | the nodes are fresh and built from the records of `Walk`, in request order |
| Subtree.FindFrom | src/main/java/tz/go/moh/ucs/service/OpenmrsLocationService.java:68-74 | the first match, none iff every id is present and different, else `NullPointer` |
| Subtree.FindThrows | src/main/java/tz/go/moh/ucs/service/OpenmrsLocationService.java:69-70 | the search throws iff a null id comes before the first match |
| Subtree.FindLocation | src/main/java/tz/go/moh/ucs/service/OpenmrsLocationService.java:68-74 | the search loop with its break computes `FindFrom` |
| Subtree.TagHits | src/main/java/tz/go/moh/ucs/service/OpenmrsLocationService.java:97-107 | the node is added once per queried tag it carries, and never if it carries none |
| Subtree.DescendFrom | src/main/java/tz/go/moh/ucs/service/OpenmrsLocationService.java:93-115 | the descent throws only `NullPointer` |
| Subtree.DescendSound | src/main/java/tz/go/moh/ucs/service/OpenmrsLocationService.java:93-115 | every position returned is a strict descendant of the parent that carries a queried tag |
| Subtree.ChildCopies | src/main/java/tz/go/moh/ucs/service/OpenmrsLocationService.java:97-112 | a child contributes its own copies directly before its subtree |
| Subtree.DescendComplete | src/main/java/tz/go/moh/ucs/service/OpenmrsLocationService.java:93-115 | every node below the parent is listed at least once per queried tag it carries |
| Subtree.PathUnique | src/main/java/tz/go/moh/ucs/service/OpenmrsLocationService.java:93-115 | with distinct uuids, a node hangs below a parent by one chain of children only |
| Subtree.DescendExact | src/main/java/tz/go/moh/ucs/service/OpenmrsLocationService.java:93-115 | with distinct uuids, a node is listed exactly once per queried tag it carries if it lies below the parent, and never otherwise |
| Subtree.ChildTree | src/main/java/tz/go/moh/ucs/service/OpenmrsLocationService.java:93-115 | the nested loops and recursion compute `DescendFrom` |
| Subtree.TagLoop | src/main/java/tz/go/moh/ucs/service/OpenmrsLocationService.java:97-107 | the inner loop computes `Here`; exceptions inside it add nothing |
| Subtree.Climb | src/main/java/tz/go/moh/ucs/service/OpenmrsLocationService.java:68-83 | the climb stops only at a node carrying the top-level tag, and throws only `NullPointer` |
| Subtree.ClimbChain | src/main/java/tz/go/moh/ucs/service/OpenmrsLocationService.java:68-83 | the node the climb stops at ends a way up from the node with `uuid` on which every earlier node lacks the tag: the first ancestor-or-self carrying it |
| Subtree.ChainClimb | src/main/java/tz/go/moh/ucs/service/OpenmrsLocationService.java:68-83 | every such way up ends where the climb stops |
| Subtree.Query | src/main/java/tz/go/moh/ucs/service/OpenmrsLocationService.java:65-91 | the query throws only `NullPointer` |
| Subtree.QuerySound | src/main/java/tz/go/moh/ucs/service/OpenmrsLocationService.java:65-91 | every result carries a queried tag and lies below the node the climb stops at |
| Subtree.QueryComplete | src/main/java/tz/go/moh/ucs/service/OpenmrsLocationService.java:85-87 | every node below the node the climb stops at is listed at least once per queried tag it carries |
| Subtree.QueryExact | src/main/java/tz/go/moh/ucs/service/OpenmrsLocationService.java:85-87 | with distinct uuids, the result counts each node below the top node exactly once per queried tag it carries, and holds no other node |
| Subtree.UnknownUuid | src/main/java/tz/go/moh/ucs/service/OpenmrsLocationService.java:76-78 | a uuid no node has gives the empty list |
| Subtree.GetLocationsByLevelAndTags | src/main/java/tz/go/moh/ucs/service/OpenmrsLocationService.java:65-91 | the search, the climb and the descent compute `Query` |

## Left out

- The HTTP transport (`HttpUtil.post`/`get`/`delete`, `getURL`, `init`, `createConnection`) and the reading of response bodies: the server is the `Remote.Server` script, and `getAllLocations` takes its replies as the `replies` parameter.
- `HfrService.fetchHealthFacilityData` and `fetchAdminHierarchData`, with their page loops. HfrService.java is not part of this model; the fetch drivers see one attempt as one scripted reply.
- `OpenMrsCallsUtils.getLocationAttributeUuid` and `updateLocationAttribute`: nothing in the core calls them.
- `OpenmrsLocationService.getLocationsByLevelAndTags` only fetches the list over the network and then calls the modelled query.
- `Thread.sleep`, the `InterruptedException` it may raise, `synchronized`, logging and `printStackTrace`: they have no effect on the modelled state.
- The `Location` address field and its accessors: the Address class is not part of this model.
- Strings are treated as ASCII. `toLowerCase`, `toUpperCase` and `equalsIgnoreCase` use no Unicode case tables; `\s` and `isWhitespace` are their ASCII definitions.
- JSON members of the wrong type are read as absent. Queried tags are taken to be strings.
- FetchHelper.GetAllLocations: the source retries a failing page without bound; the model allows `fuel` requests and reports whether the walk stopped on its own.
- Subtree.GetLocationsByLevelAndTags: requires an acyclic hierarchy (`Ranked`). This excludes every cycle in the node list, including cycles the query never reaches, on which the source terminates normally. On a cycle the query does reach, the source recurses until the stack overflows.
- Subtree.Query: works on value snapshots and returns positions, not the shared `Location` objects.
- Feeds.ProcessHfrRecord: states the call chain, the framing and the index invariant. It does not restate, per village, what Realign.GetChildLocation and Calls.GetOtherLocation state about the renames.
- Feeds.ProcessHfrResponse: states the calls per record and where the page ends. It does not restate the code index after the page, because realignment also writes to it.
- Resolver.EnsureLocationExists: the effect of a rename or move on the found node is stated under an accepting server. Under other scripts only the framing is stated.
- Realign.GetChildLocation: the exact name, parent and attributes of each renamed village are stated when every reply from the call's start is a 200 (`Remote.AllAccepted`). Under a script with failures, only the bounds of `Realigned` are stated: each field is kept or takes the value written.
- Calls.GetOtherLocation: the new name of each village is stated when every reply from the call's start is a 200. Under a script with failures, a changed name is the record's `village`, but which villages changed is not stated.
- Calls.GetOtherLocation: its `updateOrCreateLocationAttribute` call never sends, because it only runs on a node that has a Code. The model states this, not a write.
