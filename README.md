# agile-cards: verified model of the card store and its helpers

agile-cards is a flash-card app. Cards live in groups, in a local SQLite
database. The database can be backed up to, and restored from, a WebDAV
server. This project models the app's data core in Dafny and proves
properties of it:

- `sqlite_service.dfy` (module `SqliteStore`): the `SqliteService` class and
  its two tables `Group` and `Cards`. The rules it keeps are unique group
  names, unique card hashes, at most 16 groups from `saveGroup`, the reserved
  group '默认', and the foreign key `group_id`. Each SQL statement is a
  function on the database value `Db`, with its row-set result or the
  constraint it violates. The class methods run those statements in the
  order the service does.
- `database_service.dfy` (module `DatabaseService`): the earlier
  `databaseService` object, with tables `groups` and `cards`. It has plain
  create/read/update/delete operations and the grouping query
  `getGroupsWithCards`. Every operation fails with 'Database not
  initialized' until `init` has connected.
- `webdav_service.dfy` (module `WebDav`): the pure path, URL and status
  logic of the WebDAV backup. It also gives the order of the steps of an
  upload or a download, over an abstract transport and an abstract local
  export/import.
- `app_init_store.dfy` (module `AppInit`): the `appInit` store with its two
  refs `isDbInitialized` and `dbInitializationError`.
- `config_service.dfy` (module `Config`): `getConfig`/`setConfig` over the
  configuration record.
- `rows.dfy` (module `Rows`): the table semantics both stores share.
  `Where` is a `WHERE` filter, `Update` an `UPDATE ... WHERE`, and
  `UniqueBy` a `UNIQUE` or primary-key column.

Parameters of the model:
- `digest` stands for the SHA-256 hex digest behind `cardHash`.
- `foreignKeys` says whether SQLite enforces the `FOREIGN KEY` clauses. It
  does so only when the connection turns the `foreign_keys` pragma on, which
  the service never does explicitly. Every property is proved for both
  settings.
- `now` stands for `Date.now()`.
- `platformIsWeb` stands for `Capacitor.getPlatform() === 'web'`.
- `Transport` stands for the WebDAV server: a function from a request to
  the response.

Behaviour worth knowing:
- Deleting the reserved group '默认' is not an error. Its `DELETE` matches
  no row, so the group stays.
- `dropGroupByID` on the id of '默认' still deletes every card of that group:
  the cards' `DELETE` comes first and has no exception for '默认'
  (src/services/sqliteService.ts:149-151).
- At 16 groups `saveGroup` reports `changes: 0` and raises no error.
- `saveGroup` reads the group count and inserts at a later `await`, so two
  calls started together at 15 groups can both insert (see "## Findings").
- A failed upload or download is re-thrown as the generic '上传失败' or
  '下载失败'. The HTTP status is not kept, and 401/403/404 are not told apart.
- A card of an unknown group is refused only when foreign keys are
  enforced.
- `dropGroupByID` issues its two `DELETE`s at separate `await`s. A
  `saveCards` or an `updateCardsOfID` into the same group that lands between
  them leaves a card pointing at a deleted group when foreign keys are not
  enforced, and makes `dropGroupByID` throw when they are (see "## Findings").
- `getGroupsWithCards` awaits one query per group, so a card moved or
  added while it runs can be missing from every entry or appear in two
  (see "## Findings").
- The WebDAV backup calls `initialize`, `exportToSQL`, `importFromSQL` and
  `close` on a `SqliteService` class that defines none of them.
- `setConfig` tests the key with JavaScript's `in`, which also finds names
  the configuration object inherits, such as "toString". Setting such a
  name succeeds and adds it as an own key.

## Model

| member | source | states |
|---|---|---|
| Rows.Where | src/services/sqliteService.ts:150 | a `WHERE` filter keeps exactly the rows that satisfy it; it keeps everything when all rows pass, nothing when none do, and fewer rows when one fails |
| Rows.WhereAppend | src/services/sqliteService.ts:150 | filtering a concatenation filters each part and concatenates the results, so a filter keeps its rows in table order |
| Rows.UniqueBySnoc | src/services/sqliteService.ts:47 | inserting a row whose key is new keeps a `UNIQUE` column unique |
| Rows.UpdateKeepsUnique | src/services/sqliteService.ts:173-175 | an `UPDATE` that rewrites at most one row, to a key no other row has, keeps the column unique |
| Rows.WhereKeepsUnique | src/services/sqliteService.ts:150-153 | a `DELETE` keeps a unique column unique |
| Rows.UniqueByAtMostOne | src/services/sqliteService.ts:130 | a selection on one value of a unique column matches at most one row |
| SqliteStore.SameTextSameHash | src/services/sqliteService.ts:207-213 | `cardHash` sees only `question + answer`: two cards whose texts concatenate alike get the same hash, whatever the digest |
| SqliteStore.InsertGroup | src/services/sqliteService.ts:47 | inserting a group succeeds exactly when no group has that name; otherwise `UNIQUE group_name` refuses it |
| SqliteStore.InsertCard | src/services/sqliteService.ts:103-105 | a card insert succeeds exactly when its hash is new and, with foreign keys enforced, its group exists; a used hash is a `UNIQUE` violation; on success the groups are unchanged and one row with that hash is appended |
| SqliteStore.DeleteCardsOfGroup | src/services/sqliteService.ts:150 | exactly the cards of other groups remain; the groups and counters are unchanged |
| SqliteStore.DeleteGroupUnlessDefault | src/services/sqliteService.ts:153 | the delete fails exactly when foreign keys are enforced and a non-reserved group with the id still has cards; otherwise exactly the groups other than that non-reserved one remain and the cards are unchanged |
| SqliteStore.DeleteCard | src/services/sqliteService.ts:163 | exactly the cards with another id remain; the groups are unchanged |
| SqliteStore.UpdateGroupUnlessDefault | src/services/sqliteService.ts:172-175 | a rename can fail only on `UNIQUE group_name`; a missing `group_id` changes nothing; on success the cards and the number of groups are unchanged |
| SqliteStore.UpdateCard | src/services/sqliteService.ts:183-186 | an unknown id changes nothing; the update is a `UNIQUE` violation exactly when a card has the id and another card already has the new hash; on success the groups and the number of cards are unchanged |
| SqliteStore.SelectGroupById | src/services/sqliteService.ts:130 | exactly the groups with that id |
| SqliteStore.SelectCardById | src/services/sqliteService.ts:140 | exactly the cards with that id |
| SqliteStore.EnsureDefaultGroup | src/services/sqliteService.ts:68-75 | afterwards a group named '默认' exists; the cards are unchanged; the existing groups are kept in order with at most one added |
| SqliteStore.DropGroup | src/services/sqliteService.ts:149-154 | the two deletes run back to back never fail, and no card refers to the id afterwards |
| SqliteStore.InsertDuringDropStrandsCard | src/services/sqliteService.ts:149-154 | a card inserted into a non-reserved group between the two DELETEs of `dropGroupByID` makes the group's DELETE fail when foreign keys are enforced; otherwise the drop succeeds and leaves that card referring to a group that no longer exists |
| SqliteStore.SaveGroupRow | src/services/sqliteService.ts:89-95 | a `saveGroup` run to completion changes nothing at 16 groups and otherwise is the insert; from at most 16 groups it never ends above 16 |
| SqliteStore.SerialSavesKeepCap | src/services/sqliteService.ts:89-95 | any number of `saveGroup` calls that each finish before the next starts keep the count at most 16 |
| SqliteStore.InterleavedSavesPassCap | src/services/sqliteService.ts:89-91 | two `saveGroup` calls that both read the count before either inserts, at 15 groups with new distinct names, both succeed and leave 17 groups |
| SqliteStore.NewCardRow | src/services/sqliteService.ts:103-105 | the inserted card stores the given answer, or "" when there is none, a hash of its own question and answer, and the same `now` as both review times |
| SqliteStore.UpdatedCardRow | src/services/sqliteService.ts:184-186 | the updated card's hash is recomputed from its new content; the answer is the given one or "" when there is none; each review time is the given one or `now` when there is none |
| SqliteStore.EnsureDefaultGroupExactlyOne | src/services/sqliteService.ts:68-75 | after initialisation the file is consistent and holds exactly one group named '默认'; a file that already has it is unchanged |
| SqliteStore.EnsureDefaultGroupIdempotent | src/services/sqliteService.ts:68-75 | initialising a second time adds nothing |
| SqliteStore.InsertGroupKeepsValid | src/services/sqliteService.ts:89-93 | a group insert below the cap keeps every table invariant, appends one row with the given name and a fresh id, and leaves the cards alone |
| SqliteStore.InsertCardKeepsValid | src/services/sqliteService.ts:100-106 | a successful card insert keeps every table invariant and appends one row with a fresh id |
| SqliteStore.CollidingContentRejected | src/services/sqliteService.ts:207-213 | the hash depends only on `question + answer`: after ("ab", "c") is stored, ("a", "bc") is refused by `UNIQUE card_hash` |
| SqliteStore.DropGroupEffect | src/services/sqliteService.ts:149-154 | deleting a group's cards, then the group, never fails; afterwards no card refers to the id, every other card and group is kept, '默认' is kept, and the file stays consistent |
| SqliteStore.DeleteCardEffect | src/services/sqliteService.ts:162-164 | deleting a card removes exactly the card with that id (one row or none), leaves the groups alone and keeps the file consistent |
| SqliteStore.DeleteCardLength | src/services/sqliteService.ts:162-164 | deleting by a unique id shortens the table by one row exactly when that id exists |
| SqliteStore.UpdateGroupEffect | src/services/sqliteService.ts:172-175 | renaming fails exactly when a non-reserved row has the id and another group already has the name; otherwise only that row's name and description change, the row named '默认' never changes, the cards are untouched and the file stays consistent |
| SqliteStore.RenameGroupKeepsValid | src/services/sqliteService.ts:172-175 | a rename to a name no other group has keeps every table invariant |
| SqliteStore.UpdateCardEffect | src/services/sqliteService.ts:183-186 | a successful card update rewrites only the card with that id, keeps its id, keeps every stored hash equal to the hash of its card's content, and leaves the groups alone |
| SqliteStore.UpdateCardWithoutIdIsNoop | src/services/sqliteService.ts:186 | a card without `card_id` is looked up as id 0, which no stored card has, so the update changes nothing |
| SqliteStore.SelectGroupByIdEffect | src/services/sqliteService.ts:126-133 | the lookup by id returns the one group with that id, or nothing when there is none |
| SqliteStore.SelectCardByIdEffect | src/services/sqliteService.ts:136-143 | the lookup by id returns the one card with that id, or nothing when there is none |
| SqliteStore.SqliteService.constructor | src/services/sqliteService.ts:19-26 | a new service is not connected and its database file is empty |
| SqliteStore.SqliteService.InitDB | src/services/sqliteService.ts:29-83 | after `initDB` the service is connected, the file is consistent and holds exactly one '默认'; an open connection or an existing '默认' leaves the tables as they were |
| SqliteStore.SqliteService.GetGroupNum | src/services/sqliteService.ts:191-196 | the count of groups, between 1 and 16 |
| SqliteStore.SqliteService.GetCardsNum | src/services/sqliteService.ts:199-204 | the count of cards |
| SqliteStore.SqliteService.SaveGroup | src/services/sqliteService.ts:86-97 | at 16 groups nothing changes and 0 rows are reported; a used name is refused with the tables unchanged; otherwise exactly one row with the name and `group_dis ?? ''` is added; the count never exceeds 16 |
| SqliteStore.SqliteService.SaveCards | src/services/sqliteService.ts:100-107 | the card is inserted with its hash, `answer ?? ""` and `now` as both review times; a colliding hash or, with foreign keys enforced, an unknown group is refused with the tables unchanged |
| SqliteStore.SqliteService.GetGroup | src/services/sqliteService.ts:110-115 | every group, including '默认' |
| SqliteStore.SqliteService.GetCards | src/services/sqliteService.ts:118-123 | every card |
| SqliteStore.SqliteService.GetGroupById | src/services/sqliteService.ts:126-133 | at most one group, present exactly when the id exists |
| SqliteStore.SqliteService.GetCardsById | src/services/sqliteService.ts:136-143 | at most one card, present exactly when the id exists |
| SqliteStore.SqliteService.DropGroupById | src/services/sqliteService.ts:146-156 | no card refers to the id afterwards; the other cards and groups are all kept; the group goes unless it is '默认' |
| SqliteStore.SqliteService.DropCardsById | src/services/sqliteService.ts:159-166 | exactly the card with that id is removed; the groups are unchanged |
| SqliteStore.SqliteService.UpdateGroupOfId | src/services/sqliteService.ts:169-177 | the rename follows `UpdateGroupEffect`: a name clash is refused with the tables unchanged, and every row named '默认' survives |
| SqliteStore.SqliteService.UpdateCardsOfId | src/services/sqliteService.ts:180-188 | the card `card_id ?? 0` is rewritten with a recomputed hash; a clash is refused with the tables unchanged |
| SqliteStore.SqliteService.CloseDB | src/services/sqliteService.ts:217-222 | the connection is dropped and the file keeps its rows |
| DatabaseService.CardsOfGroup | src/services/__databaseService.ts:146 | exactly the cards with that `group_id` |
| DatabaseService.GroupsWithCards | src/services/__databaseService.ts:122-140 | one entry per group, in order, each with the group's id and name and exactly the cards of that group |
| DatabaseService.GroupingAcrossWrites | src/services/__databaseService.ts:124-137 | when the query for each group sees its own state of `cards`, there is still one entry per group, each holding exactly the cards of that group in the state its query saw |
| DatabaseService.SnapshotGrouping | src/services/__databaseService.ts:124-137 | when every query sees the same table, the grouping is the one-snapshot grouping `GroupsWithCards` |
| DatabaseService.MoveDuringGroupingLosesCard | src/services/__databaseService.ts:124-137 | a card moved from the second group to the first between the two groups' queries appears in no entry, although its group exists |
| DatabaseService.GroupsWithCardsPartition | src/services/__databaseService.ts:122-140 | the grouping has one entry per group, in order; each entry holds exactly the cards of its group; a card is in some entry exactly when its group exists, and in one entry only |
| DatabaseService.MatchCount | src/services/__databaseService.ts:152-158 | an update by card id reports 1 change when the id exists and 0 otherwise |
| DatabaseService.GroupMatchCount | src/services/__databaseService.ts:179-185 | an update or delete by group id reports 1 change when the id exists and 0 otherwise |
| DatabaseService.MoveKeepsRefs | src/services/__databaseService.ts:170-176 | moving a card to an existing group keeps every card's `group_id` pointing at a group when foreign keys are enforced |
| DatabaseService.IdsStayBounded | src/services/__databaseService.ts:152-176 | rewriting card columns other than the id keeps every id within the AUTOINCREMENT counter |
| DatabaseService.DatabaseService.constructor | src/services/__databaseService.ts:19-22 | a new service is not connected and its tables are empty |
| DatabaseService.DatabaseService.Init | src/services/__databaseService.ts:24-86 | `init` connects unless already connected or on the web platform, where it returns without connecting |
| DatabaseService.DatabaseService.SaveGroup | src/services/__databaseService.ts:89-95 | before `init` it fails with nothing changed; otherwise exactly one row with the name and a fresh id is appended and the cards are untouched |
| DatabaseService.DatabaseService.SaveCard | src/services/__databaseService.ts:98-105 | before `init` it fails with nothing changed; an unknown group is refused when foreign keys are enforced; otherwise exactly one row with the given values is appended |
| DatabaseService.DatabaseService.GetGroups | src/services/__databaseService.ts:108-112 | fails exactly before `init`; otherwise every group |
| DatabaseService.DatabaseService.GetCards | src/services/__databaseService.ts:115-119 | fails exactly before `init`; otherwise every card |
| DatabaseService.DatabaseService.GetGroupsWithCards | src/services/__databaseService.ts:122-140 | fails exactly before `init`; otherwise one entry per group, in table order, with the group's id and name and exactly the cards of that group |
| DatabaseService.DatabaseService.GetCardsByGroupId | src/services/__databaseService.ts:143-149 | fails exactly before `init`; otherwise exactly the cards with that `group_id` |
| DatabaseService.DatabaseService.UpdateCardLastReviewed | src/services/__databaseService.ts:152-158 | only `last_reviewed_at` of the card with that id changes; every other card and column is kept; the change count is 1 or 0 |
| DatabaseService.DatabaseService.UpdateCard | src/services/__databaseService.ts:161-167 | only `question` and `answer` of the card with that id change; the change count is 1 or 0 |
| DatabaseService.DatabaseService.UpdateCardGroup | src/services/__databaseService.ts:170-176 | only `group_id` of the card with that id changes; with foreign keys enforced, a move to an unknown group is refused with nothing changed |
| DatabaseService.DatabaseService.UpdateGroupName | src/services/__databaseService.ts:179-185 | only `group_name` of the group with that id changes; the change count is 1 or 0 |
| DatabaseService.DatabaseService.DeleteGroup | src/services/__databaseService.ts:188-194 | only the group row goes and the cards are untouched; with foreign keys enforced, a group that still has cards is refused |
| DatabaseService.DatabaseService.DeleteCard | src/services/__databaseService.ts:197-203 | exactly the card with that id is removed |
| WebDav.FormatSqlPath | src/services/webDavService.ts:70 | the formatted path ends in '.sql' and starts with the given path; it is the path itself when that already ends in '.sql', and otherwise the path with the whole '.sql' appended |
| WebDav.FormatSqlPathIdempotent | src/services/webDavService.ts:110 | formatting a formatted path changes nothing |
| WebDav.WithoutLeadingSlash | src/services/webDavService.ts:153 | exactly one leading '/' is removed, if present; otherwise the path is unchanged |
| WebDav.AbsoluteUrl | src/services/webDavService.ts:201 | the URL is the server base followed by the path less one leading '/' |
| WebDav.LastIndexOf | src/services/webDavService.ts:247 | the position of the last occurrence of a character, or -1 when it does not occur |
| WebDav.DirectoryOf | src/services/webDavService.ts:247-252 | a directory, when there is one, is a non-empty proper prefix of the path followed by '/' |
| WebDav.DirMarkerUrl | src/services/webDavService.ts:256 | the marker URL starts with the server base, ends in '/.dir', and is the directory's absolute URL followed by '/.dir' |
| WebDav.DirectoryOfMeaning | src/services/webDavService.ts:247-252 | no directory is made exactly when the path has no '/' after position 0; otherwise the directory is the non-empty prefix before the last '/' |
| WebDav.DirectoryAcceptedMeaning | src/services/webDavService.ts:269 | a directory marker accepts exactly the statuses an upload accepts, plus 409 |
| WebDav.Sends | src/services/webDavService.ts:161-165 | each request becomes one send step, in the same order |
| WebDav.EnsureDirectoryExists | src/services/webDavService.ts:245-299 | it sends nothing when there is no directory; otherwise one empty `application/octet-stream` PUT to base + directory + '/.dir'; the outcome is only logged |
| WebDav.UploadFile | src/services/webDavService.ts:148-197 | the directory request goes first, then the PUT of the content; the upload succeeds exactly on a status in [200, 300); every failure is '上传失败' |
| WebDav.DownloadFile | src/services/webDavService.ts:200-242 | one GET; it succeeds exactly on a status in [200, 300) with a non-empty body, which it returns; every failure is '下载失败' |
| WebDav.UploadDatabase | src/services/webDavService.ts:67-104 | the web platform is refused before any step; the database is opened and exported before anything is sent; the script goes to the '.sql' path as 'text/plain'; the database is closed only after a successful upload |
| WebDav.DownloadDatabase | src/services/webDavService.ts:107-145 | the web platform is refused; the script is downloaded before the database is opened; it is imported only after a successful download; the database is closed only after a successful import |
| AppInit.Apply | src/stores/appInitStore.ts:15-25 | marking the database initialized clears the error; recording an error clears the initialized flag and keeps the message |
| AppInit.Run | src/stores/appInitStore.ts:15-25 | no setter call leaves the state as it was; after at least one, the store is initialized exactly when the last call was `setDbInitialized` |
| AppInit.RunConsistent | src/stores/appInitStore.ts:6-7 | from the initial state, no sequence of setter calls reaches a state that is both initialized and in error |
| AppInit.RunLastWins | src/stores/appInitStore.ts:9-25 | after any non-empty sequence of setter calls, the state is what the last call sets |
| AppInit.ApplyIdempotent | src/stores/appInitStore.ts:15-25 | calling either setter twice in a row is the same as calling it once |
| AppInit.AppInitStore.constructor | src/stores/appInitStore.ts:6-7 | the store starts not initialized and without an error |
| AppInit.AppInitStore.SetDbInitialized | src/stores/appInitStore.ts:21-30 | the exported `setDbInitialized` leaves the store initialized and without an error |
| AppInit.AppInitStore.SetDbInitializationError | src/stores/appInitStore.ts:15-19 | the store holds the message and is not initialized |
| Config.Lookup | src/services/configService.ts:5-7 | a key's value when the key exists, and nothing otherwise |
| Config.Assign | src/services/configService.ts:10-17 | an assignment succeeds exactly when `in` finds the key, as an own key or an inherited name; it removes no key, adds only the assigned one, and adds none when the key is already an own key |
| Config.GetAfterSet | src/services/configService.ts:11-12 | reading a key after setting it gives the new value |
| Config.SetLeavesOthers | src/services/configService.ts:11-12 | setting a key leaves every other key's value as it was |
| Config.SetSameValue | src/services/configService.ts:11-12 | setting an own key to its current value changes nothing |
| Config.SetInheritedAddsKey | src/services/configService.ts:11-12 | setting an inherited name that is not an own key succeeds and adds exactly one key |
| Config.ConfigStore.constructor | src/services/configService.ts:1-3 | the service starts from the given configuration record |
| Config.ConfigStore.GetConfig | src/services/configService.ts:5-7 | the current value of the key, or nothing for an unknown key |
| Config.ConfigStore.SetConfig | src/services/configService.ts:10-17 | a key that `in` finds, own or inherited, takes the new value and nothing else changes; any other key is an error and the record is unchanged |

## Left out

- Connection lifecycle: `createConnection`, `open`, `closeConnection` and `isDBOpen` are not modelled. `initDB` always succeeds in the model, so its 'Database not initialized.' error after `initDB` never happens.
- SqliteService.InitDB: a failure of `initDB` itself is not modelled. The service's `catch` there and its retry on the next call are outside the model.
- SQL engine internals, the `idx_group_id` index, and the row order of `SELECT *`. Rows come back in insertion order in the model.
- SqliteStore.SqliteService.SaveGroup: each call is modelled as running to completion before the next starts, so the bound of 16 groups it keeps holds only for calls made in turn; interleaved calls can pass it, as `InterleavedSavesPassCap` shows.
- SqliteStore.SqliteService.DropGroupById: its two `DELETE`s are modelled as running back to back, so its guarantees that the call never fails and that no card refers to the id afterwards hold only when no other call runs between them; an insert or move into the group landing in between leaves a card pointing at a deleted group (foreign keys off) or makes the call fail (foreign keys on), as `InsertDuringDropStrandsCard` shows for an insert.
- DatabaseService.DatabaseService.GetGroupsWithCards: the per-group queries are modelled as reading one snapshot of `cards`; in the source each is a separate `await`, so a `saveCard`, `deleteCard` or `updateCardGroup` landing between them can leave a card out of every entry or list it twice, as `MoveDuringGroupingLosesCard` shows for a move.
- SqliteService.SaveGroup: `changes` is 1 on success. The driver's `result.changes?.changes \|\| 0` is not modelled further.
- Card hash: the SHA-256 digest and the hex encoding are a parameter. Their collision resistance is not assumed.
- `Date.now()` is one parameter `now`. The source reads the clock twice per call and may get two different values.
- SqliteService.UpdateCardsOfId: the method returns `result.values?.[0]` of an `UPDATE`, which is nothing useful. The model returns only the outcome.
- SqliteService.constructor and DatabaseService.constructor: the tables start empty. A database file left over from an earlier run is not modelled.
- WebDAV transport: `XMLHttpRequest`, the Basic authorisation header, `CONFIG.WEBDAV_AUTH_TOKEN` and the 60-second `DEFAULT_TIMEOUT` are not modelled. A timeout is just one possible response.
- WebDav.UploadDatabase and WebDav.DownloadDatabase: `initialize`, `exportToSQL`, `importFromSQL` and `close` are called on the `SqliteService` imported from src/services/databaseService.ts, and that class defines none of them (it has `initDB`, `addUser`, `getUsers` and `closeDB`), so these calls have no implementation in the repository. `LocalDb` stands for an implementation the code does not contain: export and import are abstract, and opening and closing that database always succeeding is an assumption of the model, not the program's behaviour.
- Console logging, and the `error.response`/`error.request` branches that only log before re-throwing.
- `Capacitor.getPlatform()` is a boolean parameter.
- `appInitStore`: the unexported `setDbInitialized` at src/stores/appInitStore.ts:9-13 can never be called from outside the store. Its body matches the exported one.
- `CONFIG` in src/config/config.ts is not part of this model. The service works on whatever string-keyed record it is given, with the names it inherits as a parameter.
- Config.Lookup: reading an inherited name that is not an own key gives the inherited member in JavaScript, a function rather than a string; the model gives nothing.
- Config.Assign: assigning the accessor `__proto__` changes the prototype instead of adding a key in JavaScript; the model treats every inherited name as an ordinary key.
- The spaced-repetition scheduler: no scheduling code exists in the modelled files.
- SQL dump/restore formats.
- The scaffold "users" service in src/services/databaseService.ts.
- The seed data in src/stores/cards.ts, src/stores/cardGroups.ts and src/services/placeholder.ts.
- The OpenAI wrapper.
- App bootstrap, routing and build configuration.

## Findings

| source | as written | input that shows it | evidently intended | confidence | as-written member | corrected member |
|---|---|---|---|---|---|---|
| src/services/sqliteService.ts:89-91 | `saveGroup` reads the group count at one `await` and inserts at a later one, so calls started together all pass the check before any inserts | 15 groups, then two `saveGroup` calls started together with new, distinct names: both insert and the table holds 17 groups | at most 16 groups | medium, not executed | SqliteStore.InterleavedSavesPassCap | SqliteStore.SerialSavesKeepCap |
| src/services/sqliteService.ts:149-154 | `dropGroupByID` deletes the group's cards and then the group at two separate `await`s, with no transaction around them | groups '默认' (id 1) and g (id 2), no cards; `dropGroupByID(2)` deletes the cards, `saveCards` with `group_id` 2 inserts a card, then the group's `DELETE` runs: with foreign keys enforced it fails, without them the card is left pointing at id 2 | a dropped group takes all its cards with it and the drop succeeds | low, not executed | SqliteStore.InsertDuringDropStrandsCard | SqliteStore.DropGroupEffect |
| src/services/__databaseService.ts:124-137 | `getGroupsWithCards` awaits one `SELECT` per group, so each group's query sees the `cards` table as it is at that moment | groups 1 and 2 and a card in group 2; `updateCardGroup` moves the card to group 1 after group 1's query has returned and before group 2's runs: the card is in no entry | each card of an existing group in exactly one entry | low, not executed | DatabaseService.MoveDuringGroupingLosesCard | DatabaseService.GroupsWithCardsPartition |
