# Costa Bikers club app — a Dafny model of its state logic

Costa Bikers is a small React application for a motorbike club. Members log in,
see the next ride, join it and chat about it, browse the archive of past rides,
vote in polls, and admins manage the roster. Everything is kept in the browser's
`localStorage` under versioned keys, seeded from built-in data.

This project models the deterministic logic under the screens:

- the versioned persistence layer, running over the test suite's in-memory
  `localStorage` double and falling back to the seed collections;
- the application state holder: its collection updates, each persisted
  through `storage.save*`, and the upcoming/past split of the trips;
- poll voting (with the one-vote-per-member-per-poll invariant), vote totals,
  rounded percentages, and the poll editor;
- trip edits: creating a ride, joining and leaving it, the chat with its
  `@ai` trigger, completing a ride, the briefing-fetch guard, rebuilding the
  external links, adding gallery photos, and the member lookups with their
  fallbacks;
- validation rules: the admin's add/update/delete member handlers, the login
  password rule, and the image upload pre-checks and answer handling.

Modules, one per source file:

| Module | Models |
|---|---|
| `Types` | the records of `types.ts` |
| `Json` | `JSON.stringify`/`JSON.parse`, as an injective encoding with an unparseable case |
| `LocalStorageMock` | the `LocalStorageMock` class of `test/setup.ts` |
| `Constants` | `MEMBERS`, `MOCK_TRIPS`, `INITIAL_POLLS` |
| `Storage` | `services/storage.ts` |
| `AppState` | `App.tsx` |
| `Polls` | `components/Polls.tsx` |
| `NextTrip` | `components/NextTrip.tsx` |
| `PastTrips` | `components/PastTrips.tsx` |
| `Admin` | `components/Admin.tsx` |
| `Login` | `components/Login.tsx` |
| `ImageUpload` | `services/imageUploadService.ts` |
| `Records`, `Seqs`, `Strings`, `Wrappers` | the array and string operations these use: find/map/filter by id, `filter(x => x !== v)`, `trim`, `toLowerCase`, `includes` |

How effects are modelled:

- `Date.now()` becomes a `nat` parameter, and ids are built from its decimal
  digits. Where a chat message, an assistant answer or a new poll reads the
  clock more than once, each reading is a separate parameter, so nothing
  assumes they agree. Two places take several readings as one: the seed
  trips (below) and adding an option, which the source does once for each
  poll with the id but the model does with one reading for all of them.
- `new Date(d).getTime()` becomes a `timeOf` function parameter.
- The answer to a `confirm` dialog is a `confirmed: bool` parameter. An
  `alert` becomes the returned outcome.
- AI replies and briefings are opaque input strings.
- The image host's JSON answer is an input, with `None` for a request that
  threw.
- `import.meta.env.DEV` is an `isDev: bool` parameter.
- The seed trips' comment timestamps depend on when `constants.ts` was
  evaluated. Its two `Date.now()` calls are taken as one moment, the
  `loadedAt` parameter.

Stored values are abstract texts: `Plain(s)` for anything written as a raw
string, such as the version tag or a corrupted entry, and `Encoded(doc)` for a
`JSON.stringify`'d collection. `Parse` succeeds exactly on `Encoded` texts.

Imperative parts are classes:

- `LocalStorageMock.LocalStorage` holds the store as a `Dict`: the insertion
  order of keys (the order of `Object.keys`) and a map from key to value.
  `Valid()` says the keys are distinct and exactly the map's domain.
- `AppState.App` holds `members`, `trips`, `polls`, `user` and the active
  tab. Every handler
  keeps `Mirrored()`: the trips and polls held in memory are what
  `getTrips`/`getPolls` would read back from the store.
- `CheckVersion`, `GetMembers` and the `Save*` methods change the store and
  are proved against specification functions (`VersionChecked`,
  `GetMembersEffect`, `Dict.Put`).
- `NextTrip.RebuildLinks` builds the link list by appending, as
  `handleSubmit` pushes onto a local array. It is proved equal to
  `RebuiltLinks`.

One disagreement inside the repository: `services/storage.test.ts`
calls `checkVersion(isDev)`, but in `services/storage.ts` `checkVersion` is a
zero-argument function that reads `import.meta.env.DEV`. The model follows
the tests' form, with an explicit `isDev` parameter, and otherwise follows the
code.

## Model

| member | source | states |
|---|---|---|
| Json.Stringify | services/storage.ts:44 | a serialised collection is never the empty string, so `getItem` returns it rather than null |
| Json.ParseStringify | services/storage.ts:38 | parsing what was stringified gives back the same collection |
| Json.ParseOnlyStringified | services/storage.ts:38 | parsing yields a collection exactly when the text is that collection's serialisation (an injective encoding) |
| LocalStorageMock.LocalStorage.constructor | test/setup.ts:7 | a new store is valid and empty |
| LocalStorageMock.LocalStorage.Clear | test/setup.ts:9-11 | after `clear` the store is valid and empty |
| LocalStorageMock.LocalStorage.SetItem | test/setup.ts:17-19 | `setItem` keeps the store valid and writes the key in place (an existing key keeps its position, a new key goes last) |
| LocalStorageMock.LocalStorage.RemoveItem | test/setup.ts:21-23 | `removeItem` keeps the store valid and drops the key |
| LocalStorageMock.LocalStorage.GetItem | test/setup.ts:13-15 | `getItem` reads the field through `Dict.Get`; its result after each write is stated by `GetAfterPut`, `GetAfterRemove` and `ClearEmpties` |
| LocalStorageMock.LocalStorage.Length | test/setup.ts:25-27 | `length` reads the field through `Dict.Length`; `LengthCountsKeys` and `LengthAfterPut` state its value |
| LocalStorageMock.LocalStorage.Key | test/setup.ts:29-32 | `key` reads the field through `Dict.Key`; `KeyInStore` and `ClearEmpties` state its value |
| LocalStorageMock.PutValid | test/setup.ts:17-19 | writing a key keeps the keys distinct and equal to the stored domain |
| LocalStorageMock.RemoveValid | test/setup.ts:21-23 | deleting a key keeps the keys distinct and equal to the stored domain |
| LocalStorageMock.ClearEmpties | test/setup.ts:9-32 | the empty store has length 0, every `getItem` is null and `key(0)` is null |
| LocalStorageMock.GetAfterPut | test/setup.ts:13-19 | after `setItem(k, v)`, `getItem(k)` is `v`, or null when `v` is `""` (the null fallback of `getItem`); every other key reads as before |
| LocalStorageMock.GetAfterRemove | test/setup.ts:13-23 | after `removeItem(k)`, `getItem(k)` is null and every other key reads as before |
| LocalStorageMock.LengthCountsKeys | test/setup.ts:25-27 | `length` is the number of distinct stored keys |
| LocalStorageMock.LengthAfterPut | test/setup.ts:17-27 | overwriting a key keeps `length`; a new key adds one |
| LocalStorageMock.KeyInStore | test/setup.ts:29-32 | `key(i)` is null out of range, and otherwise a key present in the store |
| Constants.SeedAdminUnique | constants.ts:4-16 | exactly one seed member has id `admin`: the first, whose role is admin |
| Constants.SeedIdsDistinct | constants.ts:4-72 | the seed member ids are pairwise distinct |
| Constants.SeedIdListIsMemberIds | constants.ts:4-72 | the seed member ids are `admin, m1, …, m5` in order |
| Constants.SeedPollsSingleChoice | constants.ts:135-161 | in the seed poll no member is in two options' votes, and option ids are distinct |
| Constants.SeedOneUpcoming | constants.ts:74-133 | exactly one seed trip, the first, is upcoming; the others are past |
| Constants.SeedReferencesMembers | constants.ts:74-133 | every participant and comment author in the seed trips is a seed member id |
| Storage.CheckVersion | services/storage.ts:15-31 | the store afterwards is `VersionChecked` of the store before, and the result says whether the store was reset |
| Storage.DevKeepsStore | services/storage.ts:17-19 | in development the version check changes nothing |
| Storage.MismatchLeavesOnlyTag | services/storage.ts:22-27 | on a missing or different version the store holds exactly one key, `cbb_version = '1.1.0'`, and every other key reads null |
| Storage.MatchKeepsStore | services/storage.ts:22-23 | with the current version stored, no reset happens and the store is unchanged |
| Storage.CheckVersionIdempotent | services/storage.ts:22-27 | a second check right after the first needs no reset and changes nothing |
| Storage.GetMembers | services/storage.ts:34-52 | the returned members and the new store are those of `GetMembersEffect` (version check, read, repair and write-back) |
| Storage.SeedAdmin | constants.ts:4-16 | the seed list holds `admin`, and the admin found by id is its first record |
| Storage.ReadMembersHasAdmin | services/storage.ts:37-51 | the members list read always contains `admin`: from the seed, from the stored list, after the repair or on the parse-error path |
| Storage.RepairPrependsAdmin | services/storage.ts:41-45 | a stored list lacking `admin` is returned as `[defaultAdmin] + stored`, and exactly that list is written back |
| Storage.NoRepairNoWrite | services/storage.ts:37-46 | when the entry is absent, unparseable or already has `admin`, `getMembers` writes nothing beyond the version check |
| Storage.AbsentMembersGiveSeed | services/storage.ts:37-38 | with no members entry the seed members are returned |
| Storage.SaveMembers | services/storage.ts:53-59 | the members entry is overwritten with the serialised list |
| Storage.MembersRoundTrip | services/storage.ts:34-59 | `saveMembers(ms)` followed by `getMembers()` returns `ms` and leaves the store as saved, when `ms` holds `admin` and the version is current |
| Storage.FallbackToSeed | services/storage.ts:60-84 | an absent, empty or unparseable trips (polls) entry reads as the seed trips (polls) |
| Storage.ReadTrips | services/storage.ts:60-68 | `getTrips` on a given entry; `FallbackToSeed` and `ReadsAfterSave` state its result |
| Storage.ReadPolls | services/storage.ts:76-84 | `getPolls` on a given entry; `FallbackToSeed` and `ReadsAfterSave` state its result |
| Storage.GetTrips | services/storage.ts:60-68 | `getTrips` reads the store without changing it; `GetReadsStoredOrSeed` states its result |
| Storage.GetPolls | services/storage.ts:76-84 | `getPolls` reads the store without changing it; `GetReadsStoredOrSeed` states its result |
| Storage.GetReadsStoredOrSeed | services/storage.ts:60-84 | `getTrips` (`getPolls`) returns the stored collection when its entry parses, and the seed trips (polls) otherwise |
| Storage.SaveTrips | services/storage.ts:69-75 | the trips entry is overwritten with the serialised list |
| Storage.SavePolls | services/storage.ts:85-91 | the polls entry is overwritten with the serialised list |
| Storage.ReadsAfterSave | services/storage.ts:53-91 | after a save, the saved collection reads back exactly as saved, and the other collections read as before |
| Storage.SaveWritesOnlyItsKey | services/storage.ts:53-91 | a save changes only its own key; every other key, the version tag included, reads as before |
| Records.FirstIndex | App.tsx:41 | the index of the first record with the id, or the length when there is none |
| Records.FindById | App.tsx:41 | `find` by id yields a record exactly when one has the id, and then it is the first record with the id |
| Records.RemoveKeepsDistinct | components/Polls.tsx:248 | filtering out an id keeps the remaining ids pairwise distinct |
| Records.ReplaceById | App.tsx:23-44 | the map keeps the length and replaces exactly the records whose id matches |
| Records.RemoveById | App.tsx:34-64 | after the filter no record has the id, and the list is no longer |
| Records.Upsert | App.tsx:41-47 | replace when the id exists, else append; `UpsertEffect` states the result |
| Records.ReplaceKeepsIds | App.tsx:23 | replacing keeps every position's id, so the id order is kept |
| Records.FindAfterReplace | App.tsx:23-30 | after replacing, finding the id yields the new record exactly when the id was present |
| Records.RemoveMembership | App.tsx:34-64 | a record survives the filter iff it was there and has a different id |
| Records.RemoveAppend | App.tsx:34-64 | filtering distributes over concatenation, so the kept records keep their relative order |
| Records.RemoveAbsent | App.tsx:34-64 | filtering an absent id changes nothing |
| Records.UpsertEffect | App.tsx:41-47 | an existing id is replaced in place (same length, other positions unchanged); a new id is appended at the end; afterwards the id finds the new record |
| Seqs.RemoveAll | components/NextTrip.tsx:153 | `filter(id => id !== x)` leaves no `x` and only elements of the input |
| Seqs.RemoveAllCount | components/Polls.tsx:35 | the filter removes every occurrence of `x` and keeps every other element's count |
| Seqs.RemoveAllMembership | components/NextTrip.tsx:153 | an element survives iff it was in the list and differs from `x` |
| Seqs.RemoveAllAppend | components/Polls.tsx:35-39 | the filter distributes over concatenation |
| Seqs.RemoveAllAbsent | components/NextTrip.tsx:153 | filtering an absent value changes nothing |
| Seqs.RemoveAllIdempotent | components/Polls.tsx:35 | filtering twice is filtering once |
| Seqs.RemoveAllAppendSelf | components/Polls.tsx:35-39 | removing `x` again after appending `x` gives the filtered list, so a re-vote leaves others' votes as they were |
| Seqs.RemoveAllCommute | components/Polls.tsx:35 | filters for two values commute |
| AppState.UpcomingTrip | App.tsx:75 | the result is the first trip with status upcoming, and none exactly when no trip is upcoming |
| AppState.PastOnly | App.tsx:76 | the filter keeps only past trips, drawn from the input |
| AppState.InsertByDate | App.tsx:76 | inserting into a newest-first list gives a newest-first list with the new trip added |
| AppState.SortNewestFirst | App.tsx:76 | the sort is a permutation of its input ordered newest first |
| AppState.PastTripsArePastSorted | App.tsx:76 | `pastTrips` is sorted newest first and holds each past trip as often as the trips do, and no other trip |
| AppState.PastOnlyCount | App.tsx:76 | the filter keeps every past trip with its multiplicity and drops the others |
| AppState.PastTrips | App.tsx:76 | the archive list; `PastTripsArePastSorted` states it is newest first and, as a multiset, exactly the past trips |
| AppState.NavTabs | App.tsx:163-201 | the bottom navigation shows Home, Next Run, Vote, Members, then Admin exactly for a logged-in admin, then Archive |
| AppState.Shown | App.tsx:69-159 | without a user the login screen; otherwise the active tab's screen, except that the admin tab shows nothing to a non-admin |
| AppState.RoleChangeOfLoggedInUser | App.tsx:22-191 | after `handleUpdateMember` refreshes the logged-in member, the admin screen and button are there iff the updated record is an admin, even with the admin tab active; updating another member changes neither |
| AppState.App.constructor | App.tsx:15-20 | start-up loads members through `getMembers` (with its version check and repair) and trips and polls with their seed fallbacks; nobody is logged in; the home tab is active |
| AppState.App.HandleUpdateMember | App.tsx:22-31 | members are replaced by id and saved; the logged-in user is refreshed iff it is the updated member; trips and polls are unchanged |
| AppState.App.HandleDeleteTrip | App.tsx:33-37 | the trips with the id are removed and the list is saved; nothing else changes |
| AppState.App.HandleUpdateTrip | App.tsx:39-50 | the trip is upserted by id and the list saved; nothing else changes |
| AppState.App.HandleUpdatePolls | App.tsx:52-55 | the polls become the given list and are saved |
| AppState.App.HandleAddMember | App.tsx:57-61 | the member is appended last and the list saved |
| AppState.App.HandleDeleteMember | App.tsx:63-67 | the members with the id are removed and the list saved |
| AppState.App.SetUser | App.tsx:71-103 | logging in or out sets the user, keeps the store invariants and changes no collection and not the tab |
| AppState.App.SetTab | App.tsx:163-201 | the navigation sets the active tab and changes nothing else |
| Polls.PendingChoice | components/Polls.tsx:26-27 | a pending choice exists iff the poll has a non-empty pending option id |
| Polls.Select | components/Polls.tsx:18-23 | selecting records the option for that poll and keeps every other poll's pending choice |
| Polls.VotePoll | components/Polls.tsx:29-45 | the voted poll keeps its id, question, active flag and number of options |
| Polls.SubmitVote | components/Polls.tsx:25-54 | without a pending choice nothing changes; with one, the polls are rebuilt (same length) and only that poll's pending choice is dropped |
| Polls.SubmitTouchesOnlyItsPoll | components/Polls.tsx:29-44 | polls with another id are unchanged, and every poll keeps its id and position |
| Polls.VotedOnce | components/Polls.tsx:33-42 | after voting the user appears exactly once in the selected option's votes and in no other option |
| Polls.VoteKeepsOthers | components/Polls.tsx:35-39 | apart from the user's own vote, each option's votes and their order are unchanged |
| Polls.VoteKeepsOptions | components/Polls.tsx:33-41 | each option keeps its id, title and description, in the same order |
| Polls.VoteMembership | components/Polls.tsx:35-41 | after voting, the user is in an option iff it is the selected one, and any other member is in it iff they were before |
| Polls.VoteKeepsSingleChoice | components/Polls.tsx:33-42 | voting keeps every member in at most one option of the poll, given distinct option ids (the vote adds the member to every option with the chosen id) |
| Polls.SubmitKeepsSingleChoice | components/Polls.tsx:25-47 | given the one-vote-per-member invariant and distinct option ids in every poll, submitting keeps both |
| Polls.VoteIdempotent | components/Polls.tsx:35-39 | voting twice for the same option is the same as voting once |
| Polls.SubmitTwiceSameAsOnce | components/Polls.tsx:25-54 | selecting and submitting the same option again leaves the polls as after the first submit |
| Polls.TotalVotesAppend | components/Polls.tsx:101 | the total is additive over the options, so it is the sum of the vote-list lengths |
| Polls.TotalVotesBounds | components/Polls.tsx:101-115 | each option's count is at most the total, and a zero total means every option has no votes |
| Polls.TotalVotes | components/Polls.tsx:101 | the `reduce` of the vote counts; `TotalVotesAppend` and `TotalVotesBounds` state its value |
| Polls.Percentage | components/Polls.tsx:116 | 0 when nobody voted; otherwise `Math.round(100·v/t)`, i.e. within half a point of the exact share with halves rounded up; at most 100 |
| Polls.CurrentVoteOptionId | components/Polls.tsx:104 | the user's current option is none iff the user is in no option's votes, otherwise the first option holding the user |
| Polls.SubmitShowsVote | components/Polls.tsx:47-107 | after submitting, the voted option is the user's current and active choice and the poll is no longer dirty |
| Polls.ActiveCount | components/Polls.tsx:75 | the number of active polls is at most the number of polls, and 0 iff none is active |
| Polls.ActiveCountAppend | components/Polls.tsx:75 | the count is additive over concatenation |
| Polls.ActiveCountSingle | components/Polls.tsx:75 | one poll counts 1 iff it is active, so with additivity the count is the number of active polls |
| Polls.AddPoll | components/Polls.tsx:199-210 | a new poll is appended after the existing ones: active, two options, no votes, single-choice, and distinct option ids whatever the three clock readings are |
| Polls.NewPoll | components/Polls.tsx:199-210 | the new poll with ids from three clock readings; `AddPoll` states its shape (active, two empty options, distinct option ids) |
| Polls.DeletePoll | components/Polls.tsx:212-216 | without confirmation nothing changes; with it the polls with the id are removed |
| Polls.DeletePollKeepsOthers | components/Polls.tsx:214 | a poll survives deletion iff it was there with another id |
| Polls.UpdatePoll | components/Polls.tsx:219-229 | the map applies the edit to exactly the polls with the id |
| Polls.QuestionChange | components/Polls.tsx:218-220 | only the matching polls' question changes; ids, options and active flags stay |
| Polls.OptionChange | components/Polls.tsx:222-230 | in the matching polls each option with the id gets the value in the chosen field (title or description) and every other option stays; other polls are unchanged; every poll keeps its id, question and active flag, and every option its id and votes |
| Polls.AddOption | components/Polls.tsx:232-243 | the target poll gets one new option, with no votes, at the end; other polls are unchanged |
| Polls.NewOption | components/Polls.tsx:232-243 | the new option with a clock-based id; `AddOption` states it has no votes and goes last, and `EditsKeepDistinctOptionIds` when its id is fresh |
| Polls.DeleteOption | components/Polls.tsx:245-250 | the target poll loses the options with the id; other polls are unchanged |
| Polls.DeleteOptionKeepsOthers | components/Polls.tsx:248 | an option survives iff it was there with another id |
| Polls.EditsKeepSingleChoice | components/Polls.tsx:199-250 | every editor action (adding or deleting a poll, editing the question or an option, adding or deleting an option) keeps the one-vote-per-member invariant in every poll |
| Polls.EditsKeepDistinctOptionIds | components/Polls.tsx:199-250 | every editor action, deleting a poll included, keeps option ids distinct in every poll; adding an option does so when the clock gives an id the poll does not yet use |
| NextTrip.NewTrip | components/NextTrip.tsx:23-40 | a new ride is upcoming, 0 km, without briefing, with empty comments, gallery, links and participants, and a clock-based id |
| NextTrip.UpcomingAfterAppend | App.tsx:46-75 | appending an upcoming trip when none is upcoming makes it the upcoming trip |
| NextTrip.CreatedTripBecomesUpcoming | components/NextTrip.tsx:23-40 | when there is no upcoming ride, the created ride, upserted into the trips, becomes the upcoming one |
| NextTrip.ToggleJoin | components/NextTrip.tsx:149-159 | a joined user's id is removed everywhere; otherwise it is appended once; a missing list counts as empty; only participants change |
| NextTrip.ToggleFlips | components/NextTrip.tsx:149-159 | toggling flips whether the user is joined and keeps everyone else |
| NextTrip.ToggleTwiceRestores | components/NextTrip.tsx:149-159 | from not joined, join then leave restores the participant list |
| NextTrip.PostMessage | components/NextTrip.tsx:96-110 | blank text (after trimming) is ignored; otherwise one comment is appended with the user's id, the untrimmed text, an id from the first clock reading and a timestamp from the second; only comments change |
| NextTrip.UserComment | components/NextTrip.tsx:100-105 | the member's comment; `PostMessage` and `ChatIdsFromClock` state its fields and ids |
| NextTrip.SendMessage | components/NextTrip.tsx:96-124 | the message is posted as above, and the assistant's answer is appended iff the lowercased text contains `@ai` |
| NextTrip.AnswerFollowsMessage | components/NextTrip.tsx:100-122 | with `@ai`, the old comments are followed by the user's comment then the assistant's (author `ai`, the reply text, id `ai_` and its own clock reading, stamped 100 ms after a further reading) |
| NextTrip.AssistantAnswer | components/NextTrip.tsx:115-120 | the assistant's comment; `AnswerFollowsMessage` and `ChatIdsFromClock` state its fields and id |
| NextTrip.ChatIdsFromClock | components/NextTrip.tsx:100-119 | two member messages get the same id iff their id readings of the clock agree, and a member message never gets an answer's id |
| NextTrip.TriggerIgnoresAsciiCase | components/NextTrip.tsx:113 | the trigger does not depend on the case of ASCII letters |
| NextTrip.MentionsAssistant | components/NextTrip.tsx:113 | the `@ai` trigger; `SendMessage` states that an answer follows iff it holds, and `TriggerIgnoresAsciiCase` that ASCII case does not matter |
| NextTrip.Sender | components/NextTrip.tsx:126-129 | id `ai` is the assistant; a known id is the first member with it; any other id falls back to the first member (none for an empty list); the archive chat's lookup is the same code |
| NextTrip.SenderMisattributes | components/NextTrip.tsx:128 | a message shown under another member's name has an unknown author and is shown as the first member's |
| NextTrip.CompleteTrip | components/NextTrip.tsx:136-147 | only with confirmation, and then only the status changes, to past |
| NextTrip.CompletedTripIsArchived | components/NextTrip.tsx:136-147 | once saved through the trip upsert, the completed ride appears in the newest-first archive list |
| NextTrip.WithBriefing | components/NextTrip.tsx:78 | storing the briefing changes only that field |
| NextTrip.BriefingFetchedOnce | components/NextTrip.tsx:72 | a fetch needs no briefing, no fetch in flight and a positive distance; once a non-empty briefing is stored, no further fetch |
| NextTrip.ShouldFetchBriefing | components/NextTrip.tsx:72 | the effect's guard; `BriefingFetchedOnce` states when it holds |
| NextTrip.InitialLinkUrl | components/NextTrip.tsx:326-327 | the edit form opens with the first link of the platform's URL, or `''` when there is none |
| NextTrip.FirstPlatform | components/NextTrip.tsx:326-327 | `find` by platform locates the first link of that platform |
| NextTrip.OtherLinks | components/NextTrip.tsx:345 | kept links are exactly the non-Relive and non-Calimoto ones |
| NextTrip.RebuildLinks | components/NextTrip.tsx:347-349 | the pushes build exactly `RebuiltLinks`: the other links, then Relive, then Calimoto |
| NextTrip.SubmitEdit | components/NextTrip.tsx:340-352 | the saved trip is the form with the rebuilt links |
| NextTrip.RebuiltLinksShape | components/NextTrip.tsx:345-349 | other links survive as they were; there is a Relive (Calimoto) link iff its trimmed URL is non-empty, and it carries that trimmed URL |
| NextTrip.ReopenShowsTrimmedUrls | components/NextTrip.tsx:326-351 | reopening the form after a save shows the trimmed URLs that were saved |
| NextTrip.ResubmitKeepsLinks | components/NextTrip.tsx:326-352 | saving the form again unchanged leaves the links as they are |
| PastTrips.AddPhoto | components/PastTrips.tsx:20-27 | one picture is appended at the end of the gallery (a missing gallery counts as empty); nothing else changes |
| PastTrips.AddPhotosInOrder | components/PastTrips.tsx:20-27 | two photos added in turn follow the old gallery in order |
| PastTrips.ArchiveMember | components/PastTrips.tsx:43-45 | a known id yields the first member with it; an unknown id yields the `unknown` placeholder |
| PastTrips.Pack | components/PastTrips.tsx:101-103 | the pack lists members of the roster whose ids are participants, never the placeholder |
| PastTrips.PackAppend | components/PastTrips.tsx:101-103 | the pack of concatenated participant lists is the concatenation of their packs, so order and repetitions follow the participants |
| PastTrips.PackSingle | components/PastTrips.tsx:101-103 | one participant contributes its member when one is found under an id other than `unknown`, and nothing otherwise |
| PastTrips.PackShowsKnown | components/PastTrips.tsx:101-103 | every participant with a member record is listed, other than one with the placeholder id `unknown` |
| PastTrips.PackShown | components/PastTrips.tsx:95-103 | the pack section: empty without a participant list, else `Pack`, whose behaviour `PackAppend`, `PackSingle` and `PackShowsKnown` state |
| PastTrips.ChatSendMessage | components/PastTrips.tsx:198-212 | blank text is ignored; otherwise exactly one comment is appended, with the id and the timestamp from separate clock readings, and nothing else changes |
| PastTrips.NoAssistantInArchive | components/PastTrips.tsx:198-212 | even with `@ai`, the only new comment is the member's own |
| PastTrips.DeleteAction | components/PastTrips.tsx:34-58 | the edit form gets a delete action iff the user is an admin, and it names the edited ride |
| PastTrips.DeleteFromForm | components/PastTrips.tsx:36-41 | the form's delete through the confirmation and `onDeleteTrip`; `OnlyAdminsDeleteRides` states its result |
| PastTrips.OnlyAdminsDeleteRides | components/PastTrips.tsx:34-58 | a non-admin or an unconfirmed dialog leaves the rides unchanged; a confirmed delete by an admin keeps exactly the rides with another id |
| Admin.HandleAddMember | components/Admin.tsx:28-60 | rejected with the alert iff name or password is empty; otherwise the member has the form's name, password and role, defaults for empty fields and for a zero latitude or longitude, and the form is reset to its initial values |
| Admin.AddedMemberComplete | components/Admin.tsx:39-44 | an added member has no empty defaulted field and no zero coordinate |
| Admin.AddedMemberLogsIn | components/Admin.tsx:34-45 | an added member logs in on the login screen with exactly the password typed in the form |
| Admin.HandleUpdateMember | components/Admin.tsx:62-67 | the edited member, if any, is saved and the editor closes; nothing is saved when none is edited |
| Admin.HandleDeleteMember | components/Admin.tsx:69-77 | one's own id is refused before any dialog; any other id is deleted iff confirmed |
| Admin.DeleteKeepsCurrentUser | components/Admin.tsx:69-77 | whatever is deleted through the handler and the members filter, the admin's own record stays in the list |
| Admin.ShownButtonNotRefused | components/Admin.tsx:286 | the delete button, drawn only for others, never meets the self-delete refusal |
| Admin.DeleteButtonShown | components/Admin.tsx:286 | the delete button is drawn for every member but oneself; `ShownButtonNotRefused` ties it to the handler |
| Login.ExpectedPassword | components/Login.tsx:21 | the member's password when set and non-empty, otherwise `'1234'` |
| Login.HandleLogin | components/Login.tsx:16-29 | no selection: nothing happens; login succeeds iff the typed password is the expected one; failure shows `Incorrect password` and clears the typed password |
| Login.SelectMember | components/Login.tsx:31-35 | picking a member clears the password and the error |
| Login.AcceptedPasswords | components/Login.tsx:21-24 | a member with a password accepts exactly it, one without accepts exactly `'1234'`, and nobody accepts the empty password |
| Login.FailedAttemptClears | components/Login.tsx:25-28 | after a failure, submitting again at once fails again |
| Login.SelectThenSubmit | components/Login.tsx:16-35 | submitting right after picking a member fails with the error shown |
| ImageUpload.PreCheck | services/imageUploadService.ts:23-46 | the key is checked first, then the `image/` prefix, then the 32 MiB limit; the first failing check's message is returned; the file passes iff all three hold |
| ImageUpload.ReadAnswer | services/imageUploadService.ts:60-77 | success iff the answer's flag is set and it has a URL; otherwise the answer's message, or `Upload failed`; a request that threw gives the network error |
| ImageUpload.UploadImage | services/imageUploadService.ts:22-78 | a failed pre-check is returned without reading any answer; otherwise the answer decides |
| ImageUpload.SuccessNeedsAllChecks | services/imageUploadService.ts:22-78 | success needs a key, an image type and a size within the limit, and always carries a non-empty URL |
| ImageUpload.SizeBoundary | services/imageUploadService.ts:40-46 | exactly 33554432 bytes is accepted; one byte more is rejected |
| ImageUpload.KeyCheckedFirst | services/imageUploadService.ts:23-29 | without a key every upload fails with the configuration message |
| Strings.TrimStart | components/NextTrip.tsx:98 | leading JavaScript whitespace is removed, and no more |
| Strings.TrimEnd | components/NextTrip.tsx:98 | trailing JavaScript whitespace is removed, and no more |
| Strings.BlankIffAllWhitespace | components/NextTrip.tsx:98 | a text is blank after trimming iff every character is whitespace |
| Strings.TrimIdempotent | components/NextTrip.tsx:348-349 | trimming twice is trimming once |
| Strings.ToLower | components/NextTrip.tsx:113 | lowercasing maps each character on its own, keeping the length |
| Strings.DecimalString | components/NextTrip.tsx:101 | `Date.now().toString()` is a non-empty string of digits that starts with `0` only for the number 0 |
| Strings.DecimalRoundTrip | components/NextTrip.tsx:101 | reading the digits back gives the number |
| Strings.DecimalStringInjective | components/NextTrip.tsx:101 | two numbers have the same decimal string iff they are equal |

## Left out

- JSON grammar: `JSON.stringify`/`JSON.parse` are an abstract injective encoding. A document of the wrong shape counts as unparseable and reads as the fallback. In JavaScript it would be used as it is.
- The `try`/`catch` around `setItem` (quota errors) and around `getItem` are left out, because the in-memory store never throws.
- `Object.keys` lists integer-like keys first in numeric order. The model keeps plain insertion order, which is the order for every key the application uses.
- Keys inherited from `Object.prototype` (such as `toString`) are not modelled, because they are plain JavaScript object behaviour.
- Strings.ToLower: only ASCII letters are lowercased, because there is no Unicode case table in the model.
- AppState.SortNewestFirst: the sort is specified as newest first and a permutation. Sort stability is not stated.
- `new Date(...)` parsing is the `timeOf` parameter, and ISO date formatting is an input string, because date arithmetic is outside the model.
- The Gemini requests (`services/geminiService.ts`) are left out, as foreign calls to an external SDK. Their replies are inputs, and so the reply's dependence on the comment texts is not modelled.
- The network part of `uploadImage` (`fetch`, `FormData`, `response.json()`) is left out, because network I/O is outside the model. So are `createPreviewUrl`/`revokePreviewUrl`, because they need the browser's object-URL API.
- `components/ImageUpload.tsx` is not part of this model. Its preview lifecycle depends on asynchronous React state.
- Rendering, styling and scrolling are left out, because they are JSX with no state logic. Which screen is shown and which navigation buttons appear are modelled (`AppState.Shown`, `AppState.NavTabs`); the screens' own links that switch tabs are `SetTab` calls.
- React's scheduling of state updates is not modelled: each handler is one atomic step on the current state.
- The `isMounted` guard and the `loadingAi` flag are not modelled across the asynchronous callback. `loading` is an input and the fetch is one step.
- The chat's second update is built from the trip as it was before the `await`. Interleavings with other updates during the wait are not modelled.
- Several tabs racing on the same store are not modelled, because that is concurrency.
- AppState.App.Mirrored: only trips and polls are tied to the store. Members are not, for two reasons. Deleting the `admin` record in memory would be undone by `getMembers`' repair on the next read. An unparseable members entry reads as the seed members without being rewritten.
- Constants.CoastalRun: both seed comment timestamps come from one `loadedAt`, so they are exactly 500000 ms apart. In `constants.ts:87-88` they come from two `Date.now()` calls, which only guarantees at least that gap.
- Polls.AddOption: one clock reading gives the new option's id in every poll with the id. The source reads the clock once per such poll, so those ids could differ.
- AppState.App: the seed trips and polls are stored as fallbacks once, at construction. This matches `constants.ts` being evaluated once, at load time.
- NextTrip.Sender: `allMembers[0]` on an empty roster is `undefined` in JavaScript. The model returns `None` for it.
- Storage.CheckVersion: the development flag is a parameter rather than `import.meta.env.DEV`, following how `services/storage.test.ts` calls it.
- Polls.Percentage: `Math.round` over floating point is stated over exact arithmetic. Floating-point rounding of `voteCount / totalVotes * 100` is not modelled.
- Admin.HandleAddMember: the form's `role` is a `Role`. The `as 'admin' | 'member'` cast of an arbitrary string and a `NaN` coordinate are not modelled.
- `components/Members.tsx` and `components/Home.tsx` are not part of this model. They only render and copy fields.
