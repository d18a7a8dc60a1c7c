/** The sign-up page's submit handler: a linear scan for the email, then an
    append of the new account to the users collection. */
module Signup {
  import opened Records

  datatype SignUpForm = SignUpForm(email: string, fullName: string, nationalId: string, password: string)

  /** The users collection after the submit, the error message shown on the
      form ("" for none) and where the router is sent. */
  datatype SignUpOutcome = SignUpOutcome(store: Store, error: string, route: Route)

  const DuplicateEmailError: string := "User with this email already exists"

  /** `users.find(u => u.email === email)` finds a record. */
  predicate EmailTaken(users: seq<User>, email: string)
  {
    exists u :: u in users && u.email == email
  }

  /** No two stored accounts share an email. */
  ghost predicate EmailsDistinct(users: seq<User>)
  {
    forall i, j :: 0 <= i < j < |users| ==> users[i].email != users[j].email
  }

  /** The record a successful sign-up appends: the form's fields, with phone
      number and role still blank. `id` and `createdAt` come from the clock. */
  function NewUser(form: SignUpForm, id: string, createdAt: string): User
  {
    User(id, form.email, form.fullName, form.nationalId, form.password, "", "", createdAt)
  }

  function SignUp(store: Store, form: SignUpForm, id: string, createdAt: string): (o: SignUpOutcome)
    // A taken email leaves everything as it was and shows the message.
    ensures EmailTaken(store.users, form.email) ==>
              o.store == store && o.error == DuplicateEmailError && o.route == Stay
    // Otherwise exactly one record is appended after the untouched old ones.
    ensures !EmailTaken(store.users, form.email) ==>
              && |o.store.users| == |store.users| + 1
              && o.store.users[..|store.users|] == store.users
              && o.error == ""
              && o.route == Go(SignInPage)
    ensures !EmailTaken(store.users, form.email) ==>
              var u := o.store.users[|store.users|];
              && u.id == id && u.createdAt == createdAt
              && u.email == form.email && u.fullName == form.fullName
              && u.nationalId == form.nationalId && u.password == form.password
              && u.phoneNumber == "" && u.role == ""
    // Sign-up writes only the users collection; the session is not touched.
    ensures o.store.loans == store.loans && o.store.apps == store.apps
    ensures o.store.session == store.session
  {
    if EmailTaken(store.users, form.email) then
      SignUpOutcome(store, DuplicateEmailError, Stay)
    else
      SignUpOutcome(store.(users := store.users + [NewUser(form, id, createdAt)]), "", Go(SignInPage))
  }

  /** The duplicate check keeps the emails of the stored accounts distinct. */
  lemma SignUpKeepsEmailsDistinct(store: Store, form: SignUpForm, id: string, createdAt: string)
    requires EmailsDistinct(store.users)
    ensures EmailsDistinct(SignUp(store, form, id, createdAt).store.users)
  {
  }

  /** After a successful sign-up the email is taken, so repeating the same
      submission is refused and changes nothing. */
  lemma SignUpTwiceRefused(store: Store, form: SignUpForm, id: string, id2: string, t: string, t2: string)
    requires !EmailTaken(store.users, form.email)
    ensures var s1 := SignUp(store, form, id, t).store;
            SignUp(s1, form, id2, t2) == SignUpOutcome(s1, DuplicateEmailError, Stay)
  {
  }
}
