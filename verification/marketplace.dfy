/** Every handler of the pages as one step on the store, and the invariants
    that hold across any sequence of them. */
module Marketplace {
  import opened Records
  import Signup
  import Profile
  import Lender
  import Borrower

  /** One user action that writes the store. Ids and timestamps are the
      values the clock produced; nothing makes them unique. `SignIn` stands
      in for the sign-in page, which is not part of this model: whatever
      credential check it makes, its effect is to put the `k`-th stored
      account into the session, and a sign-in that finds no account changes
      nothing. */
  datatype Action =
    | SignUp(form: Signup.SignUpForm, id: string, createdAt: string)
    | SignIn(k: nat)
    | UpdateProfile(profile: Profile.ProfileForm)
    | Logout
    | CreateLoan(loan: Lender.LoanForm, id: string, createdAt: string)
    | Apply(selected: Option<Loan>, purpose: string, id: string, appliedAt: string)
    | Approve(appId: string)
    | Reject(appId: string)

  function Step(s: Store, a: Action): (r: Store)
    ensures !a.SignUp? && !a.UpdateProfile? ==> r.users == s.users
    ensures !a.CreateLoan? ==> r.loans == s.loans
    ensures a.SignUp? || a.SignIn? || a.UpdateProfile? || a.Logout? || a.CreateLoan? ==> r.apps == s.apps
    ensures !a.SignIn? && !a.UpdateProfile? && !a.Logout? ==> r.session == s.session
    // Signing in makes a stored account the session; an unknown account
    // leaves the store as it was.
    ensures a.SignIn? && a.k < |s.users| ==> r.session == Some(s.users[a.k])
    ensures a.SignIn? && a.k >= |s.users| ==> r == s
  {
    match a
    case SignUp(form, id, createdAt) => Signup.SignUp(s, form, id, createdAt).store
    case SignIn(k) => if k < |s.users| then s.(session := Some(s.users[k])) else s
    case UpdateProfile(profile) => Profile.UpdateProfile(s, profile)
    case Logout => Profile.Logout(s).0
    case CreateLoan(loan, id, createdAt) => Lender.CreateLoan(s, loan, id, createdAt)
    case Apply(selected, purpose, id, appliedAt) => Borrower.Apply(s, selected, purpose, id, appliedAt)
    case Approve(appId) => s.(apps := Lender.Decide(s.apps, appId, Lender.Approve))
    case Reject(appId) => s.(apps := Lender.Decide(s.apps, appId, Lender.Reject))
  }

  function Run(s: Store, actions: seq<Action>): Store
    decreases |actions|
  {
    if |actions| == 0 then s else Run(Step(s, actions[0]), actions[1..])
  }

  /** Emails are pairwise distinct and every stored loan is on offer. */
  ghost predicate Invariant(s: Store)
  {
    Signup.EmailsDistinct(s.users) && Lender.AllAvailable(s.loans)
  }

  lemma StepPreservesInvariant(s: Store, a: Action)
    requires Invariant(s)
    ensures Invariant(Step(s, a))
  {
  }

  /** The invariant holds after any sequence of actions. */
  lemma {:induction false} RunPreservesInvariant(s: Store, actions: seq<Action>)
    requires Invariant(s)
    ensures Invariant(Run(s, actions))
    decreases |actions|
  {
    if |actions| > 0 {
      StepPreservesInvariant(s, actions[0]);
      RunPreservesInvariant(Step(s, actions[0]), actions[1..]);
    }
  }

  /** From the empty store, emails stay distinct and, since loan creation is
      the only writer of loans, every loan ever stored is available. */
  lemma ReachableStoresKeepInvariant(actions: seq<Action>)
    ensures Signup.EmailsDistinct(Run(EmptyStore, actions).users)
    ensures forall l :: l in Run(EmptyStore, actions).loans ==> l.status == Available
  {
    RunPreservesInvariant(EmptyStore, actions);
  }

  /** No two stored accounts share an id. */
  ghost predicate UserIdsDistinct(users: seq<User>)
  {
    forall i, j :: 0 <= i < j < |users| ==> users[i].id != users[j].id
  }

  /** Once the session and its users record agree, they keep agreeing. The
      exceptions: a sign-up that appends a record carrying the session's id,
      and a sign-in while two stored accounts share an id. */
  lemma StepKeepsSessionInSync(s: Store, a: Action)
    requires Profile.SessionInSync(s)
    requires a.SignUp? && s.session.Some? ==> a.id != s.session.value.id
    requires a.SignIn? ==> UserIdsDistinct(s.users)
    ensures Profile.SessionInSync(Step(s, a))
  {
  }

  /** A sign-up that reuses the session's id as a new record's id breaks the
      agreement: ids come from the clock and are not checked. */
  lemma SignUpWithSessionIdBreaksSync()
    ensures var u := User("1", "a@x", "A", "n", "p", "555", "lender", "t");
            var s := Store([u], [], [], Some(u));
            var r := Step(s, SignUp(Signup.SignUpForm("b@x", "B", "m", "q"), "1", "t"));
            Profile.SessionInSync(s) && !Profile.SessionInSync(r)
  {
  }

  /** A sign-in while two stored accounts share an id can select one whose
      contact fields the other does not share. */
  lemma SignInWithSharedIdBreaksSync()
    ensures var u := User("1", "a@x", "A", "n", "p", "555", "lender", "t");
            var v := User("1", "b@x", "B", "m", "q", "", "", "t");
            var s := Store([u, v], [], [], None);
            Profile.SessionInSync(s) && !Profile.SessionInSync(Step(s, SignIn(0)))
  {
  }

  /** Running `a` then `b` is running `a + b`. */
  lemma {:induction false} RunConcat(s: Store, a: seq<Action>, b: seq<Action>)
    ensures Run(s, a + b) == Run(Run(s, a), b)
    decreases |a|
  {
    if |a| > 0 {
      assert (a + b)[0] == a[0];
      assert (a + b)[1..] == a[1..] + b;
      RunConcat(Step(s, a[0]), a[1..], b);
    } else {
      assert a + b == b;
    }
  }

  /** Running two actions is stepping twice. */
  lemma RunTwo(s: Store, a: Action, b: Action)
    ensures Run(s, [a, b]) == Step(Step(s, a), b)
  {
    assert [a, b][1..] == [b];
    assert Run(s, [a, b]) == Run(Step(s, a), [b]);
    assert [b][1..] == [];
    assert Run(Step(s, a), [b]) == Run(Step(Step(s, a), b), []);
  }

  /** The offer used by the sample run below. */
  const SampleLoan := Loan("2", "1", "100", "5", "12", "t", Available)

  /** A lender signs up, signs in, chooses the lender role and publishes
      `SampleLoan`. */
  const LenderRun: seq<Action> :=
    [SignUp(Signup.SignUpForm("l@x", "L", "n", "p"), "1", "t"),
     SignIn(0),
     UpdateProfile(Profile.ProfileForm("555", LenderRole)),
     CreateLoan(Lender.LoanForm("100", "5", "12"), "2", "t")]

  /** A borrower signs up, signs in, chooses the borrower role and applies
      to `SampleLoan`; the application is then approved. */
  const BorrowerRun: seq<Action> :=
    [SignUp(Signup.SignUpForm("b@x", "B", "m", "q"), "3", "t"),
     SignIn(1),
     UpdateProfile(Profile.ProfileForm("556", BorrowerRole)),
     Apply(Some(SampleLoan), "rent", "4", "t"),
     Approve("4")]

  /** The lender signed in after `LenderRun`. */
  const SampleLender := User("1", "l@x", "L", "n", "p", "555", LenderRole, "t")

  /** After `LenderRun` the lender is signed in and `SampleLoan` is stored. */
  lemma LenderPublishesLoan()
    ensures Run(EmptyStore, LenderRun) == Store([SampleLender], [SampleLoan], [], Some(SampleLender))
  {
    var l1 := User("1", "l@x", "L", "n", "p", "", "", "t");
    var l2 := l1.(phoneNumber := "555", role := LenderRole);
    var s1 := Step(EmptyStore, LenderRun[0]);
    assert s1 == Store([l1], [], [], None);
    var s2 := Step(s1, LenderRun[1]);
    assert s2 == Store([l1], [], [], Some(l1));
    var s3 := Step(s2, LenderRun[2]);
    assert s3 == Store([l2], [], [], Some(l2));
    var s4 := Step(s3, LenderRun[3]);
    assert s4 == Store([l2], [SampleLoan], [], Some(l2));
    assert Run(s3, LenderRun[3..]) == s4;
    assert Run(s2, LenderRun[2..]) == s4;
    assert Run(s1, LenderRun[1..]) == s4;
    assert LenderRun[0..] == LenderRun;
  }

  /** The borrower signed in after the first three actions of
      `BorrowerRun`. */
  const SampleBorrower := User("3", "b@x", "B", "m", "q", "556", BorrowerRole, "t")

  /** The second account is stored, signed in and has the borrower role. */
  lemma BorrowerSignsIn()
    ensures Run(Store([SampleLender], [SampleLoan], [], Some(SampleLender)), BorrowerRun[..3]) ==
            Store([SampleLender, SampleBorrower], [SampleLoan], [], Some(SampleBorrower))
  {
    var run := BorrowerRun[..3];
    var b1 := User("3", "b@x", "B", "m", "q", "", "", "t");
    var s1 := Step(Store([SampleLender], [SampleLoan], [], Some(SampleLender)), run[0]);
    assert s1 == Store([SampleLender, b1], [SampleLoan], [], Some(SampleLender));
    var s2 := Step(s1, run[1]);
    assert s2 == Store([SampleLender, b1], [SampleLoan], [], Some(b1));
    var s3 := Step(s2, run[2]);
    assert s3 == Store([SampleLender, SampleBorrower], [SampleLoan], [], Some(SampleBorrower));
    assert Run(s2, run[2..]) == s3;
    assert Run(s1, run[1..]) == s3;
    assert run[0..] == run;
  }

  /** The borrower's application, before the lender decides. */
  const SampleApplication := Application("4", "2", "3", "B", "b@x", "rent", "t", Pending)

  /** Applying stores one pending application for `SampleLoan`. */
  lemma BorrowerApplies()
    ensures Step(Store([SampleLender, SampleBorrower], [SampleLoan], [], Some(SampleBorrower)), BorrowerRun[3]) ==
            Store([SampleLender, SampleBorrower], [SampleLoan], [SampleApplication], Some(SampleBorrower))
  {
  }

  /** Approving it moves that application to approved. */
  lemma LenderApproves()
    ensures Step(Store([SampleLender, SampleBorrower], [SampleLoan], [SampleApplication], Some(SampleBorrower)), BorrowerRun[4]) ==
            Store([SampleLender, SampleBorrower], [SampleLoan], [SampleApplication.(status := Approved)], Some(SampleBorrower))
  {
  }

  /** The last two actions of `BorrowerRun` together. */
  lemma BorrowerGetsApproved()
    ensures Run(Store([SampleLender, SampleBorrower], [SampleLoan], [], Some(SampleBorrower)), BorrowerRun[3..]) ==
            Store([SampleLender, SampleBorrower], [SampleLoan], [SampleApplication.(status := Approved)], Some(SampleBorrower))
  {
    assert BorrowerRun[3..] == [BorrowerRun[3], BorrowerRun[4]];
    RunTwo(Store([SampleLender, SampleBorrower], [SampleLoan], [], Some(SampleBorrower)), BorrowerRun[3], BorrowerRun[4]);
    BorrowerApplies();
    LenderApproves();
  }

  /** From the empty store a lender can publish a loan and a borrower can
      apply to it and be approved, so the invariants above speak about
      stores that really hold loans and applications. */
  lemma LoanAndApprovalReachable()
    ensures Run(EmptyStore, LenderRun + BorrowerRun).loans == [SampleLoan]
    ensures Run(EmptyStore, LenderRun + BorrowerRun).apps ==
              [SampleApplication.(status := Approved)]
  {
    RunConcat(EmptyStore, LenderRun, BorrowerRun);
    assert BorrowerRun == BorrowerRun[..3] + BorrowerRun[3..];
    RunConcat(Run(EmptyStore, LenderRun), BorrowerRun[..3], BorrowerRun[3..]);
    LenderPublishesLoan();
    BorrowerSignsIn();
    BorrowerGetsApproved();
  }
}
