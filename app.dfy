/**
 * The application state holder: the three collections loaded from the store
 * at start-up, the logged-in user, the handlers that replace, upsert, delete
 * and append records and persist the new collection, and the trip views the
 * screens are given. `timeOf` stands for `new Date(date).getTime()`.
 */
module AppState {
  import opened Wrappers
  import opened Types
  import opened Json
  import LocalStorageMock
  import Storage
  import Records
  import Constants

  /** `trips.find(t => t.status === 'upcoming')`. */
  function UpcomingTrip(trips: seq<Trip>): (r: Option<Trip>)
    ensures r.None? <==> forall i :: 0 <= i < |trips| ==> trips[i].status != Upcoming
    ensures r.Some? ==> exists k :: (0 <= k < |trips| && trips[k] == r.value && r.value.status == Upcoming
                                  && forall j :: 0 <= j < k ==> trips[j].status != Upcoming)
  {
    if trips == [] then None
    else if trips[0].status == Upcoming then Some(trips[0])
    else
      var r := UpcomingTrip(trips[1..]);
      if r.Some? then
        var k :| 0 <= k < |trips[1..]| && trips[1..][k] == r.value
          && forall j :: 0 <= j < k ==> trips[1..][j].status != Upcoming;
        assert trips[k + 1] == r.value;
        r
      else r
  }

  /** `trips.filter(t => t.status === 'past')`. */
  function PastOnly(trips: seq<Trip>): (r: seq<Trip>)
    ensures forall t :: t in r ==> t.status == Past
    ensures multiset(r) <= multiset(trips)
  {
    if trips == [] then []
    else
      assert trips == [trips[0]] + trips[1..];
      (if trips[0].status == Past then [trips[0]] else []) + PastOnly(trips[1..])
  }

  /** Newest first: no trip is dated after one listed before it. */
  predicate NewestFirst(s: seq<Trip>, timeOf: string -> int) {
    forall i, j :: 0 <= i < j < |s| ==> timeOf(s[i].date) >= timeOf(s[j].date)
  }

  /** Insert `t` ahead of the first trip that is not newer, so trips of equal date keep their order. */
  function InsertByDate(t: Trip, s: seq<Trip>, timeOf: string -> int): (r: seq<Trip>)
    requires NewestFirst(s, timeOf)
    ensures multiset(r) == multiset(s) + multiset{t}
    ensures NewestFirst(r, timeOf)
  {
    if s == [] || timeOf(s[0].date) <= timeOf(t.date) then
      NewestFirstHead(s, timeOf);
      PrependNewest(t, s, timeOf);
      [t] + s
    else
      var rest := InsertByDate(t, s[1..], timeOf);
      assert s == [s[0]] + s[1..];
      NewestFirstHead(s, timeOf);
      assert forall y :: y in rest ==> y in multiset(rest);
      PrependNewest(s[0], rest, timeOf);
      [s[0]] + rest
  }

  /** In a newest-first list nothing is newer than the head. */
  lemma NewestFirstHead(s: seq<Trip>, timeOf: string -> int)
    requires NewestFirst(s, timeOf)
    ensures s != [] ==> forall y :: y in s[1..] ==> timeOf(y.date) <= timeOf(s[0].date)
    ensures s != [] ==> forall y :: y in s ==> timeOf(y.date) <= timeOf(s[0].date)
  {
  }

  /** A trip no older than every trip of a newest-first list can go in front of it. */
  lemma PrependNewest(x: Trip, s: seq<Trip>, timeOf: string -> int)
    requires NewestFirst(s, timeOf)
    requires forall y :: y in s ==> timeOf(y.date) <= timeOf(x.date)
    ensures NewestFirst([x] + s, timeOf)
  {
    var r := [x] + s;
    forall i, j | 0 <= i < j < |r| ensures timeOf(r[i].date) >= timeOf(r[j].date) {
      if i > 0 {
        assert r[i] == s[i - 1] && r[j] == s[j - 1];
      } else {
        assert r[j] in s;
      }
    }
  }

  /** The comparator sort `(a, b) => time(b) - time(a)`, stable as `Array.prototype.sort` is. */
  function SortNewestFirst(s: seq<Trip>, timeOf: string -> int): (r: seq<Trip>)
    ensures multiset(r) == multiset(s)
    ensures NewestFirst(r, timeOf)
  {
    if s == [] then []
    else
      assert s == [s[0]] + s[1..];
      InsertByDate(s[0], SortNewestFirst(s[1..], timeOf), timeOf)
  }

  /** The archive list: the past trips, newest first. */
  function PastTrips(trips: seq<Trip>, timeOf: string -> int): seq<Trip> {
    SortNewestFirst(PastOnly(trips), timeOf)
  }

  /** The archive lists exactly the past trips, each as often as it occurs, newest first. */
  lemma PastTripsArePastSorted(trips: seq<Trip>, timeOf: string -> int, t: Trip)
    ensures NewestFirst(PastTrips(trips, timeOf), timeOf)
    ensures multiset(PastTrips(trips, timeOf))[t] == if t.status == Past then multiset(trips)[t] else 0
  {
    PastOnlyCount(trips, t);
  }

  lemma {:induction false} PastOnlyCount(trips: seq<Trip>, t: Trip)
    ensures multiset(PastOnly(trips))[t] == if t.status == Past then multiset(trips)[t] else 0
  {
    if trips != [] {
      PastOnlyCount(trips[1..], t);
      assert trips == [trips[0]] + trips[1..];
    }
  }

  /** `isAdmin`: a member is logged in and has the admin role. */
  predicate AdminTabVisible(user: Option<Member>) {
    user.Some? && IsAdmin(user.value)
  }

  /** `TabView`: the screens of the bottom navigation. */
  datatype Tab = HomeTab | NextTripTab | PastTripsTab | MembersTab | PollsTab | AdminTab

  /** The bottom navigation's buttons in order; the admin button is rendered under `isAdmin` only. */
  function NavTabs(user: Option<Member>): (tabs: seq<Tab>)
    ensures AdminTab in tabs <==> AdminTabVisible(user)
    ensures |tabs| >= 5 && tabs[..4] == [HomeTab, NextTripTab, PollsTab, MembersTab] && tabs[|tabs| - 1] == PastTripsTab
  {
    [HomeTab, NextTripTab, PollsTab, MembersTab] + (if AdminTabVisible(user) then [AdminTab] else []) + [PastTripsTab]
  }

  /** What the application renders: the login screen without a user, else the active tab's screen, or nothing. */
  datatype View = LoginView | TabView(tab: Tab) | NothingShown

  /** The render: `if (!user)` shows the login screen; then each tab's screen under `activeTab === ...`, the admin screen also under `isAdmin`. */
  function Shown(user: Option<Member>, tab: Tab): (v: View)
    ensures v == LoginView <==> user.None?
    ensures v == TabView(AdminTab) <==> tab == AdminTab && AdminTabVisible(user)
    ensures v == NothingShown <==> user.Some? && tab == AdminTab && !IsAdmin(user.value)
    ensures v.TabView? ==> v.tab == tab
  {
    if user.None? then LoginView
    else if tab == AdminTab && !IsAdmin(user.value) then NothingShown
    else TabView(tab)
  }

  /** The user after `handleUpdateMember` stored `updated`: refreshed when it is the same member. */
  function RefreshedUser(user: Option<Member>, updated: Member): Option<Member> {
    if user.Some? && user.value.id == updated.id then Some(updated) else user
  }

  /**
   * An admin who demotes their own record loses the admin screen and its button
   * at once, even while the admin tab is active; promoting oneself gains both;
   * updating another member changes neither.
   */
  lemma RoleChangeOfLoggedInUser(user: Option<Member>, updated: Member, tab: Tab)
    requires user.Some?
    ensures var after := RefreshedUser(user, updated);
      user.value.id == updated.id ==>
        (Shown(after, tab) == TabView(AdminTab) <==> tab == AdminTab && IsAdmin(updated))
        && (AdminTab in NavTabs(after) <==> IsAdmin(updated))
    ensures user.value.id != updated.id ==>
      Shown(RefreshedUser(user, updated), tab) == Shown(user, tab) && NavTabs(RefreshedUser(user, updated)) == NavTabs(user)
  {
  }

  class App {
    const store: LocalStorageMock.LocalStorage
    /** When the seed trips were built. */
    const loadedAt: int
    /** The collections an absent or unreadable entry falls back to. */
    const seedTrips: seq<Trip>
    const seedPolls: seq<Poll>
    var members: seq<Member>
    var trips: seq<Trip>
    var polls: seq<Poll>
    var user: Option<Member>
    /** `activeTab`. */
    var tab: Tab

    predicate Valid()
      reads this, store
    {
      store.Valid()
    }

    /** The persisted trips and polls are the ones held in memory. */
    predicate Mirrored()
      reads this, store
    {
      Storage.TripsOr(store.store.Get(Storage.TripsKey), seedTrips) == trips
      && Storage.PollsOr(store.store.Get(Storage.PollsKey), seedPolls) == polls
    }

    /** Start-up: members first (running the version guard), then trips and polls; nobody is logged in. */
    constructor (store: LocalStorageMock.LocalStorage, isDev: bool, loadedAt: int)
      requires store.Valid()
      modifies store
      ensures this.store == store && this.loadedAt == loadedAt && Valid() && Mirrored()
      ensures seedTrips == Constants.MockTrips(loadedAt) && seedPolls == Constants.InitialPolls
      ensures Storage.Loaded(store.store, members) == Storage.GetMembersEffect(old(store.store), isDev)
      ensures user == None && tab == HomeTab
    {
      this.store := store;
      this.loadedAt := loadedAt;
      seedTrips := Constants.MockTrips(loadedAt);
      seedPolls := Constants.InitialPolls;
      new;
      members := Storage.GetMembers(store, isDev);
      trips := Storage.TripsOr(store.GetItem(Storage.TripsKey), seedTrips);
      polls := Storage.PollsOr(store.GetItem(Storage.PollsKey), seedPolls);
      user := None;
      tab := HomeTab;
    }

    /** `handleUpdateMember`: replace by id, persist, and refresh the logged-in user when it is the one updated. */
    method HandleUpdateMember(updated: Member)
      requires Valid() && Mirrored()
      modifies this, store
      ensures Valid() && Mirrored()
      ensures members == Records.ReplaceById(old(members), MemberId, updated)
      ensures store.store == old(store.store).Put(Storage.MembersKey, Stringify(MemberList(members)))
      ensures user == RefreshedUser(old(user), updated)
      ensures trips == old(trips) && polls == old(polls) && tab == old(tab)
    {
      var newMembers := Records.ReplaceById(members, MemberId, updated);
      members := newMembers;
      Storage.ReadsAfterSave(store.store, Storage.MembersKey, MemberList(newMembers), seedTrips, seedPolls);
      Storage.SaveMembers(store, newMembers);
      if user.Some? && user.value.id == updated.id {
        user := Some(updated);
      }
    }

    /** `handleDeleteTrip`. */
    method HandleDeleteTrip(tripId: string)
      requires Valid() && Mirrored()
      modifies this, store
      ensures Valid() && Mirrored()
      ensures trips == Records.RemoveById(old(trips), TripId, tripId)
      ensures store.store == old(store.store).Put(Storage.TripsKey, Stringify(TripList(trips)))
      ensures members == old(members) && polls == old(polls) && user == old(user) && tab == old(tab)
    {
      var newTrips := Records.RemoveById(trips, TripId, tripId);
      trips := newTrips;
      Storage.ReadsAfterSave(store.store, Storage.TripsKey, TripList(newTrips), seedTrips, seedPolls);
      Storage.SaveTrips(store, newTrips);
    }

    /** `handleUpdateTrip`: replace in place when the id exists, otherwise append. */
    method HandleUpdateTrip(updated: Trip)
      requires Valid() && Mirrored()
      modifies this, store
      ensures Valid() && Mirrored()
      ensures trips == Records.Upsert(old(trips), TripId, updated)
      ensures store.store == old(store.store).Put(Storage.TripsKey, Stringify(TripList(trips)))
      ensures members == old(members) && polls == old(polls) && user == old(user) && tab == old(tab)
    {
      var found := Records.FindById(trips, TripId, updated.id).Some?;
      var newTrips;
      if found {
        newTrips := Records.ReplaceById(trips, TripId, updated);
      } else {
        newTrips := trips + [updated];
      }
      trips := newTrips;
      Storage.ReadsAfterSave(store.store, Storage.TripsKey, TripList(newTrips), seedTrips, seedPolls);
      Storage.SaveTrips(store, newTrips);
    }

    /** `handleUpdatePolls`: the polls screen hands back the whole new collection. */
    method HandleUpdatePolls(updated: seq<Poll>)
      requires Valid() && Mirrored()
      modifies this, store
      ensures Valid() && Mirrored()
      ensures polls == updated
      ensures store.store == old(store.store).Put(Storage.PollsKey, Stringify(PollList(updated)))
      ensures members == old(members) && trips == old(trips) && user == old(user) && tab == old(tab)
    {
      polls := updated;
      Storage.ReadsAfterSave(store.store, Storage.PollsKey, PollList(updated), seedTrips, seedPolls);
      Storage.SavePolls(store, updated);
    }

    /** `handleAddMember`: the new member goes last. */
    method HandleAddMember(newMember: Member)
      requires Valid() && Mirrored()
      modifies this, store
      ensures Valid() && Mirrored()
      ensures members == old(members) + [newMember]
      ensures store.store == old(store.store).Put(Storage.MembersKey, Stringify(MemberList(members)))
      ensures trips == old(trips) && polls == old(polls) && user == old(user) && tab == old(tab)
    {
      var newMembers := members + [newMember];
      members := newMembers;
      Storage.ReadsAfterSave(store.store, Storage.MembersKey, MemberList(newMembers), seedTrips, seedPolls);
      Storage.SaveMembers(store, newMembers);
    }

    /** `handleDeleteMember`. */
    method HandleDeleteMember(memberId: string)
      requires Valid() && Mirrored()
      modifies this, store
      ensures Valid() && Mirrored()
      ensures members == Records.RemoveById(old(members), MemberId, memberId)
      ensures store.store == old(store.store).Put(Storage.MembersKey, Stringify(MemberList(members)))
      ensures trips == old(trips) && polls == old(polls) && user == old(user) && tab == old(tab)
    {
      var newMembers := Records.RemoveById(members, MemberId, memberId);
      members := newMembers;
      Storage.ReadsAfterSave(store.store, Storage.MembersKey, MemberList(newMembers), seedTrips, seedPolls);
      Storage.SaveMembers(store, newMembers);
    }

    /** `onLogin={setUser}` and the logout button. */
    method SetUser(u: Option<Member>)
      requires Valid() && Mirrored()
      modifies this
      ensures Valid() && Mirrored()
      ensures user == u
      ensures members == old(members) && trips == old(trips) && polls == old(polls) && tab == old(tab)
    {
      user := u;
    }

    /** `setActiveTab`: the navigation buttons, the logo and the screens' own links. */
    method SetTab(t: Tab)
      requires Valid() && Mirrored()
      modifies this
      ensures Valid() && Mirrored()
      ensures tab == t
      ensures members == old(members) && trips == old(trips) && polls == old(polls) && user == old(user)
    {
      tab := t;
    }
  }
}
