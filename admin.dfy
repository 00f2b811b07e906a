/**
 * The admin screen: adding a member from the form (name and password are
 * required, other fields fall back to defaults), saving an edited member, and
 * deleting members, never oneself. `now` stands for `Date.now()` and
 * `confirmed` for the answer to the confirmation dialog.
 */
module Admin {
  import opened Wrappers
  import opened Types
  import opened Strings
  import Records
  import Login

  /**
   * The add form. It has no inputs for the latitude and longitude: they start at
   * the defaults and are reset to them, so from the screen they never hold 0.
   * `OrNumber` still models the `||` fallback for any value they may hold.
   */
  datatype AddForm = AddForm(name: string, password: string, role: Role, avatarUrl: string, bikeModel: string,
                             bikeImageUrl: string, address: string, lat: real, lng: real)

  const DefaultLat := 41.9794
  const DefaultLng := 2.8214
  const InitialForm := AddForm("", "", MemberRole, "", "", "", "", DefaultLat, DefaultLng)
  const RequiredMessage := "Name and password are required"

  /** `text || fallback` on a string. */
  function OrText(text: string, fallback: string): string {
    if text != "" then text else fallback
  }

  /** `x || fallback` on a number. */
  function OrNumber(x: real, fallback: real): real {
    if x != 0.0 then x else fallback
  }

  /** The outcome of `handleAddMember`: the alert, or the member handed to `onAddMember` and the reset form. */
  datatype AddOutcome = Rejected(message: string) | Added(member: Member, form: AddForm)

  /** `handleAddMember`. */
  function HandleAddMember(f: AddForm, now: nat): (r: AddOutcome)
    ensures r.Rejected? <==> f.name == "" || f.password == ""
    ensures r.Rejected? ==> r.message == RequiredMessage
    ensures r.Added? ==> r.form == InitialForm
    ensures r.Added? ==> var m := r.member;
      && m.id == "m_" + DecimalString(now) && m.name == f.name && m.password == Some(f.password) && m.role == Some(f.role)
      && m.avatarUrl == OrText(f.avatarUrl, "https://picsum.photos/seed/" + f.name + "/150/150")
      && m.bikeModel == OrText(f.bikeModel, "Unknown")
      && m.bikeImageUrl == OrText(f.bikeImageUrl, "https://picsum.photos/seed/" + f.name + "bike/400/300")
      && m.address == OrText(f.address, "Unknown")
      && m.lat == OrNumber(f.lat, DefaultLat) && m.lng == OrNumber(f.lng, DefaultLng)
  {
    if f.name == "" || f.password == "" then Rejected(RequiredMessage)
    else
      var m := Member("m_" + DecimalString(now), f.name, Some(f.password), Some(f.role),
        OrText(f.avatarUrl, "https://picsum.photos/seed/" + f.name + "/150/150"),
        OrText(f.bikeModel, "Unknown"),
        OrText(f.bikeImageUrl, "https://picsum.photos/seed/" + f.name + "bike/400/300"),
        OrText(f.address, "Unknown"),
        OrNumber(f.lat, DefaultLat), OrNumber(f.lng, DefaultLng));
      Added(m, InitialForm)
  }

  /** Every defaulted field of an added member is filled in: no empty text and no zero coordinate. */
  lemma AddedMemberComplete(f: AddForm, now: nat)
    requires HandleAddMember(f, now).Added?
    ensures var m := HandleAddMember(f, now).member;
      m.avatarUrl != "" && m.bikeModel != "" && m.bikeImageUrl != "" && m.address != ""
      && m.lat != 0.0 && m.lng != 0.0 && m.name != ""
  {
  }

  /** An added member logs in with the password typed in the form, and with nothing else. */
  lemma AddedMemberLogsIn(f: AddForm, now: nat, typed: string)
    requires HandleAddMember(f, now).Added?
    ensures var m := HandleAddMember(f, now).member;
      Login.HandleLogin(Login.Screen(Some(m), typed, "")).loggedIn.Some? <==> typed == f.password
  {
  }

  /** The outcome of `handleUpdateMember`: the member handed to `onUpdateMember`, if any, and the editor closed. */
  datatype UpdateOutcome = UpdateOutcome(saved: Option<Member>, editing: Option<Member>)

  /** `handleUpdateMember`: nothing is saved when no member is being edited. */
  function HandleUpdateMember(editing: Option<Member>): (r: UpdateOutcome)
    ensures r.saved == editing && r.editing == None
  {
    UpdateOutcome(editing, None)
  }

  /** The outcome of `handleDeleteMember`. */
  datatype DeleteOutcome = RefusedSelf | Cancelled | Deleted(memberId: string)

  const SelfDeleteMessage := "You cannot delete yourself!"

  /** `handleDeleteMember`: one's own id is refused before the dialog is even shown. */
  function HandleDeleteMember(memberId: string, currentUserId: string, confirmed: bool): (r: DeleteOutcome)
    ensures r.RefusedSelf? <==> memberId == currentUserId
    ensures r.Deleted? <==> memberId != currentUserId && confirmed
    ensures r.Deleted? ==> r.memberId == memberId
  {
    if memberId == currentUserId then RefusedSelf
    else if confirmed then Deleted(memberId)
    else Cancelled
  }

  /** `member.id !== currentUser.id`: the delete button is drawn for everyone but oneself. */
  predicate DeleteButtonShown(member: Member, currentUser: Member) {
    member.id != currentUser.id
  }

  /** Whatever the admin deletes, their own record stays in the members list. */
  lemma DeleteKeepsCurrentUser(members: seq<Member>, memberId: string, currentUser: Member, confirmed: bool)
    requires currentUser in members
    ensures HandleDeleteMember(memberId, currentUser.id, confirmed).Deleted? ==>
      currentUser in Records.RemoveById(members, MemberId, HandleDeleteMember(memberId, currentUser.id, confirmed).memberId)
  {
    if memberId != currentUser.id {
      Records.RemoveMembership(members, MemberId, memberId, currentUser);
    }
  }

  /** A shown delete button never meets the self-delete refusal. */
  lemma ShownButtonNotRefused(member: Member, currentUser: Member, confirmed: bool)
    requires DeleteButtonShown(member, currentUser)
    ensures !HandleDeleteMember(member.id, currentUser.id, confirmed).RefusedSelf?
  {
  }
}
