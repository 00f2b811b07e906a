/**
 * The login screen: a member is picked from the roster, then a password is
 * typed; old records without a password accept the default `'1234'`.
 */
module Login {
  import opened Wrappers
  import opened Types

  const DefaultPassword := "1234"
  const IncorrectPassword := "Incorrect password"

  /** `selectedMember.password || '1234'`. */
  function ExpectedPassword(m: Member): (p: string)
    ensures p != ""
    ensures m.password.Some? && m.password.value != "" ==> p == m.password.value
    ensures m.password.None? || m.password.value == "" ==> p == DefaultPassword
  {
    match m.password
    case Some(p) => if p != "" then p else DefaultPassword
    case None => DefaultPassword
  }

  /** The screen's state: the picked member, the typed password and the error shown. */
  datatype Screen = Screen(selected: Option<Member>, password: string, error: string)

  /** After a submit: the screen and the member passed to `onLogin`, if any. */
  datatype Submitted = Submitted(screen: Screen, loggedIn: Option<Member>)

  /** `handleLogin`. */
  function HandleLogin(s: Screen): (r: Submitted)
    ensures r.loggedIn.Some? <==> s.selected.Some? && s.password == ExpectedPassword(s.selected.value)
    ensures r.loggedIn.Some? ==> r.loggedIn == s.selected && r.screen == s
    ensures s.selected.None? ==> r == Submitted(s, None)
    ensures s.selected.Some? && r.loggedIn.None? ==> r.screen == Screen(s.selected, "", IncorrectPassword)
  {
    match s.selected
    case None => Submitted(s, None)
    case Some(m) =>
      if s.password == ExpectedPassword(m) then Submitted(s, Some(m))
      else Submitted(Screen(s.selected, "", IncorrectPassword), None)
  }

  /** `handleSelectMember`: picking a member clears the typed password and the error. */
  function SelectMember(s: Screen, m: Member): (r: Screen)
    ensures r == Screen(Some(m), "", "")
  {
    Screen(Some(m), "", "")
  }

  /** A member with a password accepts exactly that password; one without accepts exactly `'1234'`; no member accepts the empty password. */
  lemma AcceptedPasswords(m: Member, typed: string)
    ensures var ok := HandleLogin(Screen(Some(m), typed, "")).loggedIn.Some?;
      && (m.password.Some? && m.password.value != "" ==> (ok <==> typed == m.password.value))
      && (m.password.None? || m.password.value == "" ==> (ok <==> typed == DefaultPassword))
      && (typed == "" ==> !ok)
  {
  }

  /** A failed attempt leaves nothing typed, so submitting again at once fails again. */
  lemma FailedAttemptClears(s: Screen)
    requires s.selected.Some? && HandleLogin(s).loggedIn.None?
    ensures HandleLogin(HandleLogin(s).screen).loggedIn.None?
  {
  }

  /** Right after picking a member, submitting fails (nothing is typed yet) with the error shown. */
  lemma SelectThenSubmit(s: Screen, m: Member)
    ensures HandleLogin(SelectMember(s, m)) == Submitted(Screen(Some(m), "", IncorrectPassword), None)
  {
  }
}
