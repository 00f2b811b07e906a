/**
 * The versioned persistence layer: three collections stored as JSON text under
 * fixed keys of the browser store, each read falling back to the seed data,
 * and a version tag whose mismatch wipes the whole store. `isDev` stands for
 * the build's development flag; `loadedAt` for the time the seed was built.
 */
module Storage {
  import opened Wrappers
  import opened Types
  import opened Json
  import opened LocalStorageMock
  import Constants
  import Records

  const MembersKey := "cbb_members"
  const TripsKey := "cbb_trips"
  const PollsKey := "cbb_polls"
  const VersionKey := "cbb_version"

  /** The schema version this build expects; increasing it resets every user's data. */
  const CurrentVersion := "1.1.0"
  const CurrentTag := Plain(CurrentVersion)

  /** Outside development mode, a stored version other than the current one (or none) calls for a reset. */
  predicate NeedsReset(d: Dict, isDev: bool) {
    !isDev && d.Get(VersionKey) != Some(CurrentTag)
  }

  /** The store after the version guard: wiped and re-tagged on a reset, untouched otherwise. */
  function VersionChecked(d: Dict, isDev: bool): Dict {
    if NeedsReset(d, isDev) then Empty.Put(VersionKey, CurrentTag) else d
  }

  /** `checkVersion(isDev)`; `reset` says whether the mismatch was logged and `clear` called. */
  method CheckVersion(store: LocalStorage, isDev: bool) returns (reset: bool)
    requires store.Valid()
    modifies store
    ensures store.Valid()
    ensures reset == NeedsReset(old(store.store), isDev)
    ensures store.store == VersionChecked(old(store.store), isDev)
  {
    reset := false;
    if isDev {
      return;
    }
    var storedVersion := store.GetItem(VersionKey);
    if storedVersion != Some(CurrentTag) {
      store.Clear();
      store.SetItem(VersionKey, CurrentTag);
      reset := true;
    }
  }

  /** In development mode the guard keeps every key and value. */
  lemma DevKeepsStore(d: Dict)
    ensures VersionChecked(d, true) == d
  {
  }

  /** On a mismatch the store ends up holding only the current version tag, so unrelated keys are gone too. */
  lemma MismatchLeavesOnlyTag(d: Dict, other: string)
    requires d.Get(VersionKey) != Some(CurrentTag)
    requires other != VersionKey
    ensures VersionChecked(d, false).keys == [VersionKey]
    ensures VersionChecked(d, false).items == map[VersionKey := CurrentTag]
    ensures VersionChecked(d, false).Length() == 1
    ensures VersionChecked(d, false).Get(VersionKey) == Some(CurrentTag)
    ensures VersionChecked(d, false).Get(other) == None
  {
  }

  /** A matching version leaves the store alone and does not reset. */
  lemma MatchKeepsStore(d: Dict)
    requires d.Get(VersionKey) == Some(CurrentTag)
    ensures !NeedsReset(d, false) && VersionChecked(d, false) == d
  {
  }

  /** A second guard right after the first changes nothing. */
  lemma CheckVersionIdempotent(d: Dict, isDev: bool)
    ensures !NeedsReset(VersionChecked(d, isDev), isDev)
    ensures VersionChecked(VersionChecked(d, isDev), isDev) == VersionChecked(d, isDev)
  {
  }

  /** `find(m => m.id === 'admin')` holds for the members. */
  predicate HasAdmin(ms: seq<Member>) {
    Records.HasId(ms, MemberId, AdminId)
  }

  /** What `getMembers` decides from the members entry: the list to return and whether it wrote a repaired list back. */
  datatype MembersRead = MembersRead(members: seq<Member>, repaired: bool)

  function ReadMembers(item: Option<Text>): MembersRead {
    var loaded := match item
      case None => Some(Constants.Members)
      case Some(t) => ParseMembers(t);
    match loaded
    case None => MembersRead(Constants.Members, false)
    case Some(ms) =>
      match Records.FindById(Constants.Members, MemberId, AdminId)
      case Some(defaultAdmin) =>
        if !HasAdmin(ms) then MembersRead([defaultAdmin] + ms, true) else MembersRead(ms, false)
      case None => MembersRead(ms, false)
  }

  /** The store and the result after the whole of `getMembers`. */
  datatype Loaded = Loaded(store: Dict, members: seq<Member>)

  function GetMembersEffect(d: Dict, isDev: bool): Loaded {
    var checked := VersionChecked(d, isDev);
    var r := ReadMembers(checked.Get(MembersKey));
    Loaded(if r.repaired then checked.Put(MembersKey, Stringify(MemberList(r.members))) else checked, r.members)
  }

  /** `storage.getMembers()`. */
  method GetMembers(store: LocalStorage, isDev: bool) returns (members: seq<Member>)
    requires store.Valid()
    modifies store
    ensures store.Valid()
    ensures Loaded(store.store, members) == GetMembersEffect(old(store.store), isDev)
  {
    var _ := CheckVersion(store, isDev);
    var data := store.GetItem(MembersKey);
    var r := ReadMembers(data);
    members := r.members;
    if r.repaired {
      store.SetItem(MembersKey, Stringify(MemberList(members)));
    }
  }

  /** The seed holds the admin record first. */
  lemma SeedAdmin()
    ensures HasAdmin(Constants.Members)
    ensures Records.FindById(Constants.Members, MemberId, AdminId) == Some(Constants.Members[0])
  {
    assert MemberId(Constants.Members[0]) == AdminId;
  }

  /** Whatever the store holds, the members `getMembers` returns include the admin record. */
  lemma ReadMembersHasAdmin(item: Option<Text>)
    ensures HasAdmin(ReadMembers(item).members)
  {
    SeedAdmin();
    var r := ReadMembers(item);
    if r.repaired {
      assert MemberId(r.members[0]) == AdminId;
    }
  }

  /** Stored members that parse but lack the admin get the seed admin prepended, and exactly that list is written back. */
  lemma RepairPrependsAdmin(d: Dict, isDev: bool, stored: seq<Member>)
    requires VersionChecked(d, isDev).Get(MembersKey) == Some(Stringify(MemberList(stored)))
    requires !HasAdmin(stored)
    ensures GetMembersEffect(d, isDev).members == [Constants.Members[0]] + stored
    ensures GetMembersEffect(d, isDev).store.Get(MembersKey) == Some(Stringify(MemberList([Constants.Members[0]] + stored)))
  {
    SeedAdmin();
  }

  /** When the entry is absent, unparseable or already has the admin, `getMembers` writes nothing beyond the version guard. */
  lemma NoRepairNoWrite(d: Dict, isDev: bool)
    requires var item := VersionChecked(d, isDev).Get(MembersKey);
      item == None || ParseMembers(item.value).None? || HasAdmin(ParseMembers(item.value).value)
    ensures GetMembersEffect(d, isDev).store == VersionChecked(d, isDev)
  {
    SeedAdmin();
  }

  /** An absent members entry yields the seed members. */
  lemma AbsentMembersGiveSeed(d: Dict, isDev: bool)
    requires VersionChecked(d, isDev).Get(MembersKey) == None
    ensures GetMembersEffect(d, isDev) == Loaded(VersionChecked(d, isDev), Constants.Members)
  {
    SeedAdmin();
  }

  /** `storage.saveMembers(members)`: the whole list overwrites its entry. */
  method SaveMembers(store: LocalStorage, members: seq<Member>)
    requires store.Valid()
    modifies store
    ensures store.Valid()
    ensures store.store == old(store.store).Put(MembersKey, Stringify(MemberList(members)))
  {
    store.SetItem(MembersKey, Stringify(MemberList(members)));
  }

  /** Saving members that include the admin and loading them again gives the same list back and writes nothing, unless the version guard wipes the store first. */
  lemma MembersRoundTrip(d: Dict, isDev: bool, members: seq<Member>)
    requires HasAdmin(members)
    requires isDev || d.Get(VersionKey) == Some(CurrentTag)
    ensures var saved := d.Put(MembersKey, Stringify(MemberList(members)));
      GetMembersEffect(saved, isDev) == Loaded(saved, members)
  {
    SeedAdmin();
  }

  /** A trips entry read with a given fallback: the parsed trips, or the fallback on an absent, empty or unparseable entry. */
  function TripsOr(item: Option<Text>, fallback: seq<Trip>): seq<Trip> {
    match item
    case None => fallback
    case Some(t) =>
      match ParseTrips(t)
      case Some(trips) => trips
      case None => fallback
  }

  /** `getTrips()` on a given trips entry, falling back to the seed trips. */
  function ReadTrips(item: Option<Text>, loadedAt: int): seq<Trip> {
    TripsOr(item, Constants.MockTrips(loadedAt))
  }

  /** `storage.getTrips()`: a read that never changes the store. */
  function GetTrips(store: LocalStorage, loadedAt: int): seq<Trip>
    reads store
  {
    ReadTrips(store.GetItem(TripsKey), loadedAt)
  }

  /** A polls entry read with a given fallback. */
  function PollsOr(item: Option<Text>, fallback: seq<Poll>): seq<Poll> {
    match item
    case None => fallback
    case Some(t) =>
      match ParsePolls(t)
      case Some(polls) => polls
      case None => fallback
  }

  /** `getPolls()` on a given polls entry, falling back to the seed polls. */
  function ReadPolls(item: Option<Text>): seq<Poll> {
    PollsOr(item, Constants.InitialPolls)
  }

  /** `storage.getPolls()`: a read that never changes the store. */
  function GetPolls(store: LocalStorage): seq<Poll>
    reads store
  {
    ReadPolls(store.GetItem(PollsKey))
  }

  /** `getTrips()` and `getPolls()` return the stored collection when its entry parses, and the seed collection otherwise. */
  lemma GetReadsStoredOrSeed(store: LocalStorage, loadedAt: int)
    ensures var item := store.store.Get(TripsKey);
      GetTrips(store, loadedAt) ==
        if item.Some? && ParseTrips(item.value).Some? then ParseTrips(item.value).value else Constants.MockTrips(loadedAt)
    ensures var item := store.store.Get(PollsKey);
      GetPolls(store) ==
        if item.Some? && ParsePolls(item.value).Some? then ParsePolls(item.value).value else Constants.InitialPolls
  {
  }

  /** An absent, empty or unparseable trips or polls entry reads as the seed collection. */
  lemma FallbackToSeed(d: Dict, loadedAt: int)
    ensures var item := d.Get(TripsKey);
      item.None? || ParseTrips(item.value).None? ==> ReadTrips(item, loadedAt) == Constants.MockTrips(loadedAt)
    ensures var item := d.Get(PollsKey);
      item.None? || ParsePolls(item.value).None? ==> ReadPolls(item) == Constants.InitialPolls
  {
  }

  /** `storage.saveTrips(trips)`. */
  method SaveTrips(store: LocalStorage, trips: seq<Trip>)
    requires store.Valid()
    modifies store
    ensures store.Valid()
    ensures store.store == old(store.store).Put(TripsKey, Stringify(TripList(trips)))
  {
    store.SetItem(TripsKey, Stringify(TripList(trips)));
  }

  /** `storage.savePolls(polls)`. */
  method SavePolls(store: LocalStorage, polls: seq<Poll>)
    requires store.Valid()
    modifies store
    ensures store.Valid()
    ensures store.store == old(store.store).Put(PollsKey, Stringify(PollList(polls)))
  {
    store.SetItem(PollsKey, Stringify(PollList(polls)));
  }

  /** After a save, the saved collection reads back exactly as saved and the other collections read as before, whatever the fallbacks. */
  lemma ReadsAfterSave(d: Dict, key: string, doc: Document, tripsFallback: seq<Trip>, pollsFallback: seq<Poll>)
    requires key in {MembersKey, TripsKey, PollsKey}
    ensures var saved := d.Put(key, Stringify(doc));
      && (key != TripsKey ==> TripsOr(saved.Get(TripsKey), tripsFallback) == TripsOr(d.Get(TripsKey), tripsFallback))
      && (key != PollsKey ==> PollsOr(saved.Get(PollsKey), pollsFallback) == PollsOr(d.Get(PollsKey), pollsFallback))
      && (key == TripsKey && doc.TripList? ==> TripsOr(saved.Get(TripsKey), tripsFallback) == doc.trips)
      && (key == PollsKey && doc.PollList? ==> PollsOr(saved.Get(PollsKey), pollsFallback) == doc.polls)
  {
    var saved := d.Put(key, Stringify(doc));
    if key != TripsKey {
      GetAfterPut(d, key, Stringify(doc), TripsKey);
    } else {
      assert saved.Get(TripsKey) == Some(Stringify(doc));
    }
    if key != PollsKey {
      GetAfterPut(d, key, Stringify(doc), PollsKey);
    } else {
      assert saved.Get(PollsKey) == Some(Stringify(doc));
    }
  }

  /** Each save writes only its own key: every other key, hence the other collections and the version tag, reads as before. */
  lemma SaveWritesOnlyItsKey(d: Dict, key: string, doc: Document, other: string)
    requires key in {MembersKey, TripsKey, PollsKey}
    requires other != key
    ensures d.Put(key, Stringify(doc)).Get(other) == d.Get(other)
    ensures d.Put(key, Stringify(doc)).Get(key) == Some(Stringify(doc))
  {
  }
}
