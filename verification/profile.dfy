/** The profile page: its session guard and form pre-fill, the submit handler
    that rewrites the signed-in user in the users collection and in the
    session copy, and logout. */
module Profile {
  import opened Records

  datatype ProfileForm = ProfileForm(phoneNumber: string, role: string)

  /** What the page shows after mounting: a redirect, or the form for the
      signed-in user. */
  datatype ProfileView = Redirect(route: Route) | Editing(user: User, form: ProfileForm)

  /** The mount effect. The source falls back to "" for an absent phone
      number or role; a `User` always carries both fields, so the fallback
      leaves them as they are. */
  function LoadProfile(session: Option<User>): (v: ProfileView)
    ensures session.None? <==> v == Redirect(Go(SignInPage))
    ensures session.Some? ==>
              && v.Editing? && v.user == session.value
              && v.form.phoneNumber == session.value.phoneNumber
              && v.form.role == session.value.role
  {
    match session
    case None => Redirect(Go(SignInPage))
    case Some(u) => Editing(u, ProfileForm(u.phoneNumber, u.role))
  }

  /** `u` with the form's phone number and role; every other field kept. */
  function WithContact(u: User, form: ProfileForm): (w: User)
    ensures w.phoneNumber == form.phoneNumber && w.role == form.role
    ensures w.id == u.id && w.email == u.email && w.fullName == u.fullName
    ensures w.nationalId == u.nationalId && w.password == u.password && w.createdAt == u.createdAt
  {
    u.(phoneNumber := form.phoneNumber, role := form.role)
  }

  /** `users.map(...)`: every record with the given id gets the form's
      contact fields; the others are returned as they are. */
  function UpdateUsers(users: seq<User>, id: string, form: ProfileForm): (r: seq<User>)
    ensures |r| == |users|
    ensures forall i :: 0 <= i < |users| && users[i].id == id ==> r[i] == WithContact(users[i], form)
    ensures forall i :: 0 <= i < |users| && users[i].id != id ==> r[i] == users[i]
  {
    if |users| == 0 then []
    else
      var head := if users[0].id == id then WithContact(users[0], form) else users[0];
      [head] + UpdateUsers(users[1..], id, form)
  }

  /** The submit handler. The form is rendered only for a signed-in user,
      so without a session nothing changes. */
  function UpdateProfile(store: Store, form: ProfileForm): (r: Store)
    ensures store.session.None? ==> r == store
    ensures store.session.Some? ==>
              && r.session == Some(WithContact(store.session.value, form))
              && r.users == UpdateUsers(store.users, store.session.value.id, form)
    ensures r.loans == store.loans && r.apps == store.apps
  {
    match store.session
    case None => store
    case Some(u) => store.(users := UpdateUsers(store.users, u.id, form), session := Some(WithContact(u, form)))
  }

  /** The session copy and every users-table record with the session's id
      agree on phone number and role. */
  ghost predicate SessionInSync(store: Store)
  {
    store.session.Some? ==>
      forall v :: v in store.users && v.id == store.session.value.id ==>
        v.phoneNumber == store.session.value.phoneNumber && v.role == store.session.value.role
  }

  /** After a profile update the two copies agree, whatever they held
      before. */
  lemma UpdateProfileSyncsSession(store: Store, form: ProfileForm)
    requires store.session.Some?
    ensures SessionInSync(UpdateProfile(store, form))
    ensures UpdateProfile(store, form).session.value.phoneNumber == form.phoneNumber
    ensures UpdateProfile(store, form).session.value.role == form.role
  {
  }

  /** Logging out drops the session and sends the browser to sign-in. */
  function Logout(store: Store): (r: (Store, Route))
    ensures r.0.session.None?
    ensures r.0.users == store.users && r.0.loans == store.loans && r.0.apps == store.apps
    ensures r.1 == Go(SignInPage)
  {
    (store.(session := None), Go(SignInPage))
  }
}
