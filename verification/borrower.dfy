/** The borrower dashboard: its guard, the available loans and the
    borrower's own applications, the status counts, applying for a loan and
    the "already applied" gating of the apply button. */
module Borrower {
  import opened Records
  import opened Seqs
  import opened Text

  /** The mount effect: no session goes to sign-in, any role but "borrower"
      goes home. */
  function BorrowerGuard(session: Option<User>): (r: Route)
    ensures session.None? ==> r == Go(SignInPage)
    ensures session.Some? && session.value.role != BorrowerRole ==> r == Go(HomePage)
    ensures session.Some? && session.value.role == BorrowerRole ==> r == Stay
  {
    match session
    case None => Go(SignInPage)
    case Some(u) => if u.role != BorrowerRole then Go(HomePage) else Stay
  }

  /** The page's `user`: set only when the guard lets the page stay. */
  function BorrowerUser(session: Option<User>): (u: Option<User>)
    ensures u.Some? <==> BorrowerGuard(session) == Stay
    ensures u.Some? ==> u == session && u.value.role == BorrowerRole
  {
    if BorrowerGuard(session) == Stay then session else None
  }

  const IsAvailable: Loan -> bool := (l: Loan) => l.status == Available

  /** `loadLoans`: the stored loans still on offer, in stored order. */
  function AvailableLoans(loans: seq<Loan>): (r: seq<Loan>)
    ensures |r| <= |loans|
    ensures forall l :: l in r <==> l in loans && l.status == Available
  {
    Filter(loans, IsAvailable)
  }

  /** The view keeps every available loan as often as it is stored, and in
      stored order. */
  lemma AvailableLoansExact(loans: seq<Loan>)
    ensures forall l :: multiset(AvailableLoans(loans))[l] ==
                        if l.status == Available then multiset(loans)[l] else 0
    ensures SubseqOf(AvailableLoans(loans), loans)
  {
    FilterMultiplicity(loans, IsAvailable);
    FilterKeepsOrder(loans, IsAvailable);
  }

  function ByBorrower(userId: string): Application -> bool
  {
    (a: Application) => a.borrowerId == userId
  }

  /** `loadApplications`: the stored applications made by `userId`, in
      stored order. */
  function BorrowerApplications(apps: seq<Application>, userId: string): (r: seq<Application>)
    ensures |r| <= |apps|
    ensures forall a :: a in r <==> a in apps && a.borrowerId == userId
  {
    Filter(apps, ByBorrower(userId))
  }

  /** The view keeps every application of the borrower as often as it is
      stored, and in stored order. */
  lemma BorrowerApplicationsExact(apps: seq<Application>, userId: string)
    ensures forall a :: multiset(BorrowerApplications(apps, userId))[a] ==
                        if a.borrowerId == userId then multiset(apps)[a] else 0
    ensures SubseqOf(BorrowerApplications(apps, userId), apps)
  {
    FilterMultiplicity(apps, ByBorrower(userId));
    FilterKeepsOrder(apps, ByBorrower(userId));
  }

  /** `hasAppliedForLoan`: one of the page's applications is for the loan. */
  predicate HasAppliedForLoan(myApps: seq<Application>, loanId: string): (b: bool)
    ensures b <==> exists i :: 0 <= i < |myApps| && myApps[i].loanId == loanId
  {
    exists a :: a in myApps && a.loanId == loanId
  }

  /** The loan card's apply button is enabled. */
  predicate ApplyButtonEnabled(myApps: seq<Application>, loan: Loan)
  {
    !HasAppliedForLoan(myApps, loan.id)
  }

  function HasStatus(status: ApplicationStatus): Application -> bool
  {
    (a: Application) => a.status == status
  }

  /** The number of positions of `myApps` that hold an application with
      the status, counted one position at a time. */
  ghost function Tally(myApps: seq<Application>, status: ApplicationStatus): nat
  {
    if |myApps| == 0 then 0
    else (if myApps[0].status == status then 1 else 0) + Tally(myApps[1..], status)
  }

  /** Filtering by status keeps exactly the counted positions. */
  lemma {:induction false} FilterStatusTally(myApps: seq<Application>, status: ApplicationStatus)
    ensures |Filter(myApps, HasStatus(status))| == Tally(myApps, status)
  {
    if |myApps| > 0 {
      FilterStatusTally(myApps[1..], status);
    }
  }

  /** `myApplications.filter(app => app.status === status).length`. */
  function StatusCount(myApps: seq<Application>, status: ApplicationStatus): (n: nat)
    ensures n <= |myApps|
    ensures n == Tally(myApps, status)
    ensures n == 0 <==> forall a :: a in myApps ==> a.status != status
  {
    var matching := Filter(myApps, HasStatus(status));
    FilterStatusTally(myApps, status);
    assert |matching| > 0 ==> matching[0] in matching;
    |matching|
  }

  /** Every application is in exactly one of the three states, so the three
      counts add up to the number of applications. */
  lemma {:induction false} StatusCountsPartition(myApps: seq<Application>)
    ensures StatusCount(myApps, Pending) + StatusCount(myApps, Approved) + StatusCount(myApps, Rejected) == |myApps|
  {
    if |myApps| > 0 {
      StatusCountsPartition(myApps[1..]);
    }
  }

  /** The "Pending" and "Approved" cards never add up to more than the
      "My Applications" card. */
  lemma PendingPlusApprovedBounded(myApps: seq<Application>)
    ensures StatusCount(myApps, Pending) + StatusCount(myApps, Approved) <= |myApps|
  {
    StatusCountsPartition(myApps);
  }

  /** The application `handleApplyForLoan` builds; `id` and `appliedAt`
      come from the clock. */
  function NewApplication(borrower: User, loan: Loan, purpose: string, id: string, appliedAt: string): Application
  {
    Application(id, loan.id, borrower.id, borrower.fullName, borrower.email, purpose, appliedAt, Pending)
  }

  /** The handler does nothing without a page user, without a selected loan,
      or when the purpose trims to nothing. */
  predicate ApplyEnabled(session: Option<User>, selected: Option<Loan>, purpose: string)
  {
    BorrowerUser(session).Some? && selected.Some? && Trim(purpose) != ""
  }

  /** `handleApplyForLoan` on the store. It does not look for an earlier
      application to the same loan. */
  function Apply(store: Store, selected: Option<Loan>, purpose: string, id: string, appliedAt: string): (r: Store)
    ensures !ApplyEnabled(store.session, selected, purpose) ==> r == store
    ensures ApplyEnabled(store.session, selected, purpose) ==>
              && |r.apps| == |store.apps| + 1
              && r.apps[..|store.apps|] == store.apps
              && var a := r.apps[|store.apps|];
                 && a.id == id && a.appliedAt == appliedAt
                 && a.loanId == selected.value.id
                 && a.borrowerId == store.session.value.id
                 && a.borrowerName == store.session.value.fullName
                 && a.borrowerEmail == store.session.value.email
                 && a.purpose == purpose
                 && a.status == Pending
    ensures r.users == store.users && r.loans == store.loans && r.session == store.session
  {
    if ApplyEnabled(store.session, selected, purpose) then
      var a := NewApplication(BorrowerUser(store.session).value, selected.value, purpose, id, appliedAt);
      store.(apps := store.apps + [a])
    else
      store
  }

  /** The blank-purpose test is "has no non-whitespace character". */
  lemma ApplyNeedsNonBlankPurpose(session: Option<User>, selected: Option<Loan>, purpose: string)
    ensures ApplyEnabled(session, selected, purpose) <==>
            BorrowerUser(session).Some? && selected.Some? && !IsBlank(purpose)
  {
  }

  /** Re-reading the store after applying gives the page's own update
      `[...myApplications, newApplication]`, and the loan now counts as
      applied for, so its button is disabled. */
  lemma ApplyMarksLoanApplied(store: Store, selected: Option<Loan>, purpose: string, id: string, appliedAt: string)
    requires ApplyEnabled(store.session, selected, purpose)
    ensures var uid := store.session.value.id;
            var r := Apply(store, selected, purpose, id, appliedAt);
            && BorrowerApplications(r.apps, uid) == BorrowerApplications(store.apps, uid) + [r.apps[|store.apps|]]
            && HasAppliedForLoan(BorrowerApplications(r.apps, uid), selected.value.id)
            && !ApplyButtonEnabled(BorrowerApplications(r.apps, uid), selected.value)
  {
    var uid := store.session.value.id;
    var r := Apply(store, selected, purpose, id, appliedAt);
    var a := r.apps[|store.apps|];
    assert r.apps == store.apps + [a];
    FilterConcat(store.apps, [a], ByBorrower(uid));
    assert Filter([a], ByBorrower(uid)) == [a];
    assert a in BorrowerApplications(r.apps, uid);
  }

  /** Clicking a loan card's apply button and submitting the dialog. A
      disabled button opens no dialog, so nothing is submitted. */
  function ApplyThroughButton(store: Store, loan: Loan, purpose: string, id: string, appliedAt: string): (r: Store)
    ensures (BorrowerUser(store.session).Some? &&
             HasAppliedForLoan(BorrowerApplications(store.apps, store.session.value.id), loan.id)) ==> r == store
    // An enabled button opens the dialog, and submitting it runs the
    // apply handler for that loan; without a borrower nothing happens.
    ensures (BorrowerUser(store.session).Some? &&
             ApplyButtonEnabled(BorrowerApplications(store.apps, store.session.value.id), loan)) ==>
              r == Apply(store, Some(loan), purpose, id, appliedAt)
    ensures BorrowerUser(store.session).None? ==> r == store
    ensures r.users == store.users && r.loans == store.loans && r.session == store.session
  {
    match BorrowerUser(store.session)
    case None => store
    case Some(u) =>
      if ApplyButtonEnabled(BorrowerApplications(store.apps, u.id), loan) then
        Apply(store, Some(loan), purpose, id, appliedAt)
      else
        store
  }

  function ForLoan(loanId: string): Application -> bool
  {
    (a: Application) => a.loanId == loanId
  }

  /** How many of `userId`'s applications are for `loanId`. */
  function ApplicationsFor(apps: seq<Application>, userId: string, loanId: string): nat
  {
    |Filter(BorrowerApplications(apps, userId), ForLoan(loanId))|
  }

  /** Apply-once under the button gating: starting with no application to
      the loan, two rounds of clicking and submitting leave at most one, and
      exactly one when the first purpose was not blank. */
  lemma ApplyOnceThroughButton(store: Store, loan: Loan, p1: string, p2: string,
                               id1: string, id2: string, t1: string, t2: string)
    requires BorrowerUser(store.session).Some?
    requires !HasAppliedForLoan(BorrowerApplications(store.apps, store.session.value.id), loan.id)
    ensures var uid := store.session.value.id;
            var s1 := ApplyThroughButton(store, loan, p1, id1, t1);
            var s2 := ApplyThroughButton(s1, loan, p2, id2, t2);
            && ApplicationsFor(s2.apps, uid, loan.id) <= 1
            && (Trim(p1) != "" ==> ApplicationsFor(s2.apps, uid, loan.id) == 1 && s2 == s1)
  {
    var uid := store.session.value.id;
    var mine := BorrowerApplications(store.apps, uid);
    assert forall i :: 0 <= i < |mine| ==> mine[i] in mine;
    FilterNoneMatch(mine, ForLoan(loan.id));
    var s1 := ApplyThroughButton(store, loan, p1, id1, t1);
    if Trim(p1) != "" {
      ApplyMarksLoanApplied(store, Some(loan), p1, id1, t1);
      var a := s1.apps[|store.apps|];
      FilterConcat(mine, [a], ForLoan(loan.id));
      assert Filter([a], ForLoan(loan.id)) == [a];
    } else {
      var s2 := ApplyThroughButton(s1, loan, p2, id2, t2);
      assert s1 == store;
      if Trim(p2) != "" {
        ApplyMarksLoanApplied(store, Some(loan), p2, id2, t2);
        var a := s2.apps[|store.apps|];
        FilterConcat(mine, [a], ForLoan(loan.id));
        assert Filter([a], ForLoan(loan.id)) == [a];
      }
    }
  }

  /** The handler alone does not deduplicate: submitting twice for the same
      selected loan stores two applications to it. */
  lemma ApplyHandlerTwiceStoresTwo(store: Store, loan: Loan, purpose: string,
                                   id1: string, id2: string, t1: string, t2: string)
    requires ApplyEnabled(store.session, Some(loan), purpose)
    requires !HasAppliedForLoan(BorrowerApplications(store.apps, store.session.value.id), loan.id)
    ensures var uid := store.session.value.id;
            var s2 := Apply(Apply(store, Some(loan), purpose, id1, t1), Some(loan), purpose, id2, t2);
            ApplicationsFor(s2.apps, uid, loan.id) == 2
  {
    var uid := store.session.value.id;
    var mine := BorrowerApplications(store.apps, uid);
    assert forall i :: 0 <= i < |mine| ==> mine[i] in mine;
    FilterNoneMatch(mine, ForLoan(loan.id));
    var s1 := Apply(store, Some(loan), purpose, id1, t1);
    ApplyMarksLoanApplied(store, Some(loan), purpose, id1, t1);
    ApplyMarksLoanApplied(s1, Some(loan), purpose, id2, t2);
    var s2 := Apply(s1, Some(loan), purpose, id2, t2);
    var a1 := s1.apps[|store.apps|];
    var a2 := s2.apps[|s1.apps|];
    assert BorrowerApplications(s2.apps, uid) == mine + [a1] + [a2];
    FilterConcat(mine + [a1], [a2], ForLoan(loan.id));
    FilterConcat(mine, [a1], ForLoan(loan.id));
    assert Filter([a1], ForLoan(loan.id)) == [a1];
    assert Filter([a2], ForLoan(loan.id)) == [a2];
  }

  /** The "My Applications" tab: each application paired with the first
      available loan carrying its loan id; an application whose loan is not
      among the available ones is skipped. */
  function RenderedApplications(myApps: seq<Application>, available: seq<Loan>): (r: seq<(Application, Loan)>)
    ensures |r| <= |myApps|
    ensures forall k :: 0 <= k < |r| ==>
              r[k].0 in myApps && r[k].1 in available && r[k].1.id == r[k].0.loanId
    ensures forall k :: 0 <= k < |r| ==> FindLoan(available, r[k].0.loanId) == Some(r[k].1)
  {
    if |myApps| == 0 then []
    else
      var rest := RenderedApplications(myApps[1..], available);
      match FindLoan(available, myApps[0].loanId)
      case None => rest
      case Some(l) => [(myApps[0], l)] + rest
  }

  /** An application is on the tab exactly when some available loan carries
      its loan id. */
  lemma {:induction false} RenderedIffLoanAvailable(myApps: seq<Application>, available: seq<Loan>, a: Application)
    requires a in myApps
    ensures (exists k :: 0 <= k < |RenderedApplications(myApps, available)| &&
                         RenderedApplications(myApps, available)[k].0 == a)
            <==> HasLoanWithId(available, a.loanId)
  {
    var r := RenderedApplications(myApps, available);
    var rest := RenderedApplications(myApps[1..], available);
    var found := FindLoan(available, myApps[0].loanId);
    if found.Some? {
      assert r == [(myApps[0], found.value)] + rest;
      if a == myApps[0] {
        assert found.value in available && found.value.id == a.loanId;
        assert HasLoanWithId(available, a.loanId);
        assert 0 < |r| && r[0].0 == a;
        assert exists k :: 0 <= k < |r| && r[k].0 == a;
        assert r == RenderedApplications(myApps, available);
      } else {
        assert a in myApps[1..];
        RenderedIffLoanAvailable(myApps[1..], available, a);
        if exists k :: 0 <= k < |rest| && rest[k].0 == a {
          var k :| 0 <= k < |rest| && rest[k].0 == a;
          assert r[k + 1].0 == a;
        }
        if exists k :: 0 <= k < |r| && r[k].0 == a {
          var k :| 0 <= k < |r| && r[k].0 == a;
          assert k > 0;
          assert rest[k - 1].0 == a;
        }
      }
    } else {
      assert r == rest;
      if a == myApps[0] {
        assert !HasLoanWithId(available, a.loanId);
        forall k | 0 <= k < |r|
          ensures r[k].0 != a
        {
          assert r[k].1 in available && r[k].1.id == r[k].0.loanId;
        }
      } else {
        assert a in myApps[1..];
        RenderedIffLoanAvailable(myApps[1..], available, a);
      }
    }
  }

  /** The applications whose loan is among the available ones. */
  function HasListedLoan(available: seq<Loan>): Application -> bool
  {
    (a: Application) => HasLoanWithId(available, a.loanId)
  }

  /** The tab keeps the order and repetitions of the borrower's list: its
      applications are exactly the filter of that list by "some available
      loan has its loan id", entry by entry. */
  lemma {:induction false} RenderedFollowsApplications(myApps: seq<Application>, available: seq<Loan>)
    ensures |RenderedApplications(myApps, available)| == |Filter(myApps, HasListedLoan(available))|
    ensures forall k :: 0 <= k < |RenderedApplications(myApps, available)| ==>
              RenderedApplications(myApps, available)[k].0 == Filter(myApps, HasListedLoan(available))[k]
  {
    if |myApps| > 0 {
      RenderedFollowsApplications(myApps[1..], available);
      var rest := RenderedApplications(myApps[1..], available);
      var kept := Filter(myApps[1..], HasListedLoan(available));
      var found := FindLoan(available, myApps[0].loanId);
      if found.Some? {
        assert HasListedLoan(available)(myApps[0]);
        var r := RenderedApplications(myApps, available);
        var f := Filter(myApps, HasListedLoan(available));
        assert r == [(myApps[0], found.value)] + rest;
        assert f == [myApps[0]] + kept;
        forall k | 0 <= k < |r|
          ensures r[k].0 == f[k]
        {
          if k > 0 {
            assert r[k] == rest[k - 1] && f[k] == kept[k - 1];
          }
        }
      } else {
        assert !HasListedLoan(available)(myApps[0]);
        assert RenderedApplications(myApps, available) == rest;
        assert Filter(myApps, HasListedLoan(available)) == kept;
      }
    }
  }
}
