/**
 * The ride archive: adding a photo to a ride's gallery, looking participants
 * up (with a placeholder record for ids no member has), the pack shown on each
 * ride, the archive chat (the upcoming ride's chat without the assistant), and
 * who may delete a ride from the edit form. `now` stands for `Date.now()` at a
 * photo, `idNow` and `stampNow` for the two readings a chat message takes, and
 * `confirmed` for the answer to the confirmation dialog.
 */
module PastTrips {
  import opened Wrappers
  import opened Types
  import opened Strings
  import Records
  import NextTrip

  /** The picture `handleAddPhoto` adds, named after the clock. */
  function PhotoUrl(now: nat): string {
    "https://picsum.photos/seed/" + DecimalString(now) + "/400/300"
  }

  /** `handleAddPhoto`: one picture is appended to the gallery (a missing gallery counts as empty); nothing else changes. */
  function AddPhoto(trip: Trip, now: nat): (r: Trip)
    ensures r.gallery.Some? && r.gallery.value == trip.gallery.GetOr([]) + [PhotoUrl(now)]
    ensures r.(gallery := trip.gallery) == trip
  {
    trip.(gallery := Some(trip.gallery.GetOr([]) + [PhotoUrl(now)]))
  }

  /** Adding photos one after the other keeps them in order after the pictures already there. */
  lemma AddPhotosInOrder(trip: Trip, first: nat, second: nat)
    ensures AddPhoto(AddPhoto(trip, first), second).gallery == Some(trip.gallery.GetOr([]) + [PhotoUrl(first), PhotoUrl(second)])
  {
    assert trip.gallery.GetOr([]) + [PhotoUrl(first)] + [PhotoUrl(second)] == trip.gallery.GetOr([]) + [PhotoUrl(first), PhotoUrl(second)];
  }

  /** The placeholder the archive's `getMember` returns for an id no member has. */
  const UnknownId := "unknown"
  const UnknownMember := Member(UnknownId, "Unknown", None, None, "", "", "", "", 0.0, 0.0)

  /** The archive's `getMember`: the first member with the id, else the placeholder. */
  function ArchiveMember(id: string, allMembers: seq<Member>): (m: Member)
    ensures Records.HasId(allMembers, MemberId, id) ==> m in allMembers && m.id == id
    ensures Records.HasId(allMembers, MemberId, id) ==>
      exists k :: 0 <= k < |allMembers| && allMembers[k] == m && forall j :: 0 <= j < k ==> allMembers[j].id != id
    ensures !Records.HasId(allMembers, MemberId, id) ==> m == UnknownMember
  {
    Records.FindById(allMembers, MemberId, id).GetOr(UnknownMember)
  }

  /** The pack shown on a ride: each participant's member in order, skipping those that resolve to the placeholder id. */
  function Pack(participants: seq<string>, allMembers: seq<Member>): (r: seq<Member>)
    ensures |r| <= |participants|
    ensures forall m :: m in r ==> m in allMembers && m.id in participants && m.id != UnknownId
  {
    if participants == [] then []
    else
      var m := ArchiveMember(participants[0], allMembers);
      (if m.id == UnknownId then [] else [m]) + Pack(participants[1..], allMembers)
  }

  /** The pack of a list of participants is the packs of its parts, one after the other: order and repetitions follow the participants. */
  lemma {:induction false} PackAppend(a: seq<string>, b: seq<string>, allMembers: seq<Member>)
    ensures Pack(a + b, allMembers) == Pack(a, allMembers) + Pack(b, allMembers)
  {
    if a == [] {
      assert a + b == b;
    } else {
      assert (a + b)[0] == a[0] && (a + b)[1..] == a[1..] + b;
      PackAppend(a[1..], b, allMembers);
    }
  }

  /** One participant contributes its member when one is found under an id other than the placeholder's, and nothing otherwise. */
  lemma PackSingle(id: string, allMembers: seq<Member>)
    ensures Pack([id], allMembers) ==
      if Records.HasId(allMembers, MemberId, id) && id != UnknownId then [ArchiveMember(id, allMembers)] else []
  {
    assert [id][1..] == [];
  }

  /** Every participant with a member record (other than one carrying the placeholder id) is shown. */
  lemma {:induction false} PackShowsKnown(participants: seq<string>, allMembers: seq<Member>, id: string)
    requires id in participants && id != UnknownId && Records.HasId(allMembers, MemberId, id)
    ensures exists m :: m in Pack(participants, allMembers) && m.id == id
  {
    var m := ArchiveMember(participants[0], allMembers);
    if participants[0] == id {
      assert m in Pack(participants, allMembers);
    } else {
      PackShowsKnown(participants[1..], allMembers, id);
      var m' :| m' in Pack(participants[1..], allMembers) && m'.id == id;
      assert m' in Pack(participants, allMembers);
    }
  }

  /** `trip.participants && trip.participants.length > 0 && ...`: the pack section of a ride. */
  function PackShown(trip: Trip, allMembers: seq<Member>): seq<Member> {
    match trip.participants
    case None => []
    case Some(ps) => Pack(ps, allMembers)
  }

  /** The archive chat's `handleSendMessage`: a blank text is ignored, otherwise exactly one comment by the member is appended, whatever the text says. */
  function ChatSendMessage(trip: Trip, userId: string, text: string, idNow: nat, stampNow: nat): (r: Option<Trip>)
    ensures r.None? <==> IsBlank(text)
    ensures r.Some? ==> r.value.(comments := trip.comments) == trip && |r.value.comments| == |trip.comments| + 1
  {
    NextTrip.PostMessage(trip, userId, text, idNow, stampNow)
  }

  /** Unlike the upcoming ride's chat, `@ai` adds no answer here: everything after the old comments is the member's. */
  lemma NoAssistantInArchive(trip: Trip, userId: string, text: string, idNow: nat, stampNow: nat)
    requires !IsBlank(text)
    ensures var r := ChatSendMessage(trip, userId, text, idNow, stampNow).value;
      r.comments == trip.comments + [NextTrip.UserComment(userId, text, idNow, stampNow)]
      && forall i :: |trip.comments| <= i < |r.comments| ==> r.comments[i].memberId == userId
  {
  }

  /** `onDelete={isAdmin ? () => handleDeleteTrip(tripToEdit.id) : undefined}`: the ride the edit form's delete action would remove, if the form has one. */
  function DeleteAction(user: Member, trip: Trip): (r: Option<string>)
    ensures r.Some? <==> IsAdmin(user)
    ensures r.Some? ==> r.value == trip.id
  {
    if user.role == Some(AdminRole) then Some(trip.id) else None
  }

  /**
   * The rides after the edit form's delete: only with a delete action and a
   * confirmed dialog does `onDeleteTrip` (the application's `handleDeleteTrip`,
   * a removal by id) run; otherwise the rides stay as they are.
   */
  function DeleteFromForm(trips: seq<Trip>, user: Member, trip: Trip, confirmed: bool): seq<Trip> {
    match DeleteAction(user, trip)
    case None => trips
    case Some(tripId) => if confirmed then Records.RemoveById(trips, TripId, tripId) else trips
  }

  /** Members who are not admins cannot delete a ride from the archive; a confirmed delete by an admin keeps exactly the other rides. */
  lemma OnlyAdminsDeleteRides(trips: seq<Trip>, user: Member, trip: Trip, confirmed: bool, t: Trip)
    ensures !IsAdmin(user) || !confirmed ==> DeleteFromForm(trips, user, trip, confirmed) == trips
    ensures IsAdmin(user) && confirmed ==> (t in DeleteFromForm(trips, user, trip, confirmed) <==> t in trips && t.id != trip.id)
  {
    Records.RemoveMembership(trips, TripId, trip.id, t);
  }
}
