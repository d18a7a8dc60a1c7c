/** The lender dashboard: its guard, the lender's loans and the applications
    made against them, creating a loan, and approving or rejecting an
    application. */
module Lender {
  import opened Records
  import opened Seqs

  /** The mount effect: no session goes to sign-in, any role but "lender"
      goes home. */
  function LenderGuard(session: Option<User>): (r: Route)
    ensures session.None? ==> r == Go(SignInPage)
    ensures session.Some? && session.value.role != LenderRole ==> r == Go(HomePage)
    ensures session.Some? && session.value.role == LenderRole ==> r == Stay
  {
    match session
    case None => Go(SignInPage)
    case Some(u) => if u.role != LenderRole then Go(HomePage) else Stay
  }

  /** The page's `user`: set only when the guard lets the page stay. */
  function LenderUser(session: Option<User>): (u: Option<User>)
    ensures u.Some? <==> LenderGuard(session) == Stay
    ensures u.Some? ==> u == session && u.value.role == LenderRole
  {
    if LenderGuard(session) == Stay then session else None
  }

  function OwnedBy(userId: string): Loan -> bool
  {
    (l: Loan) => l.lenderId == userId
  }

  /** `loadLoans`: the stored loans whose lender is `userId`, in stored
      order. */
  function LenderLoans(loans: seq<Loan>, userId: string): (r: seq<Loan>)
    ensures |r| <= |loans|
    ensures forall l :: l in r <==> l in loans && l.lenderId == userId
  {
    Filter(loans, OwnedBy(userId))
  }

  /** The view keeps every loan of the lender as often as it is stored, and
      in stored order. */
  lemma LenderLoansExact(loans: seq<Loan>, userId: string)
    ensures forall l :: multiset(LenderLoans(loans, userId))[l] ==
                        if l.lenderId == userId then multiset(loans)[l] else 0
    ensures SubseqOf(LenderLoans(loans, userId), loans)
  {
    FilterMultiplicity(loans, OwnedBy(userId));
    FilterKeepsOrder(loans, OwnedBy(userId));
  }

  function ForLoans(myLoans: seq<Loan>): Application -> bool
  {
    (a: Application) => HasLoanWithId(myLoans, a.loanId)
  }

  /** `myApplications`: the applications made against one of the page's
      loans, in stored order. */
  function LenderApplications(apps: seq<Application>, myLoans: seq<Loan>): (r: seq<Application>)
    ensures |r| <= |apps|
    ensures forall a :: a in r <==> a in apps && HasLoanWithId(myLoans, a.loanId)
  {
    Filter(apps, ForLoans(myLoans))
  }

  /** The list keeps every matching application as often as it is stored,
      and in stored order. */
  lemma LenderApplicationsExact(apps: seq<Application>, myLoans: seq<Loan>)
    ensures forall a :: multiset(LenderApplications(apps, myLoans))[a] ==
                        if HasLoanWithId(myLoans, a.loanId) then multiset(apps)[a] else 0
    ensures SubseqOf(LenderApplications(apps, myLoans), apps)
  {
    FilterMultiplicity(apps, ForLoans(myLoans));
    FilterKeepsOrder(apps, ForLoans(myLoans));
  }

  /** Read against the store, the lender's applications are those whose loan
      is a stored loan of this lender. */
  lemma LenderApplicationsJoin(store: Store, userId: string, a: Application)
    ensures a in LenderApplications(store.apps, LenderLoans(store.loans, userId)) <==>
            a in store.apps && exists l :: l in store.loans && l.lenderId == userId && l.id == a.loanId
  {
  }

  /** `app` with its status replaced. */
  function WithStatus(app: Application, status: ApplicationStatus): (w: Application)
    ensures w.status == status
    ensures w.(status := app.status) == app
  {
    app.(status := status)
  }

  /** `applications.map(...)`: every application with the given id gets
      `status`; the others are returned as they are. */
  function SetStatus(apps: seq<Application>, appId: string, status: ApplicationStatus): (r: seq<Application>)
    ensures |r| == |apps|
    ensures forall i :: 0 <= i < |apps| && apps[i].id == appId ==> r[i] == WithStatus(apps[i], status)
    ensures forall i :: 0 <= i < |apps| && apps[i].id != appId ==> r[i] == apps[i]
  {
    if |apps| == 0 then []
    else
      var head := if apps[0].id == appId then WithStatus(apps[0], status) else apps[0];
      [head] + SetStatus(apps[1..], appId, status)
  }

  datatype Decision = Approve | Reject

  function DecisionStatus(d: Decision): (s: ApplicationStatus)
    ensures s != Pending
  {
    match d
    case Approve => Approved
    case Reject => Rejected
  }

  /** `handleApproveApplication` / `handleRejectApplication` on the
      applications collection. */
  function Decide(apps: seq<Application>, appId: string, d: Decision): (r: seq<Application>)
    ensures |r| == |apps|
    ensures forall i :: 0 <= i < |apps| && apps[i].id == appId ==> r[i].status == DecisionStatus(d)
    ensures forall i :: 0 <= i < |apps| ==> r[i].(status := apps[i].status) == apps[i]
    ensures forall i :: 0 <= i < |apps| && apps[i].id != appId ==> r[i] == apps[i]
  {
    SetStatus(apps, appId, DecisionStatus(d))
  }

  /** Deciding the same application twice gives what deciding once gave. */
  lemma {:induction false} DecideIdempotent(apps: seq<Application>, appId: string, d: Decision)
    ensures Decide(Decide(apps, appId, d), appId, d) == Decide(apps, appId, d)
  {
  }

  /** The approve and reject buttons are rendered only for a pending
      application. */
  predicate ShowsDecisionControls(app: Application)
  {
    app.status == Pending
  }

  /** The application status machine: pending may move to approved or
      rejected, and nothing else moves. */
  predicate AllowedTransition(from: ApplicationStatus, to: ApplicationStatus)
  {
    from == to || (from == Pending && to != Pending)
  }

  predicate AppIdsDistinct(apps: seq<Application>)
  {
    forall i, j :: 0 <= i < j < |apps| ==> apps[i].id != apps[j].id
  }

  /** A decision taken through the buttons moves the clicked application from
      pending to its terminal state, and when application ids are distinct
      no application takes a step outside the status machine. */
  lemma DecisionsFollowStatusMachine(apps: seq<Application>, k: nat, d: Decision)
    requires k < |apps| && ShowsDecisionControls(apps[k])
    requires AppIdsDistinct(apps)
    ensures var r := Decide(apps, apps[k].id, d);
            && r[k].status == DecisionStatus(d)
            && forall i :: 0 <= i < |apps| ==> AllowedTransition(apps[i].status, r[i].status)
  {
  }

  /** Ids come from the clock and need not be distinct: rejecting a pending
      application also rewrites an already approved one that shares its
      id. */
  lemma SharedIdLeavesStatusMachine()
    ensures var pending := Application("1", "L", "B", "n", "e", "p", "t", Pending);
            var approved := pending.(status := Approved);
            var r := Decide([pending, approved], pending.id, Reject);
            && ShowsDecisionControls(pending)
            && r[1].status == Rejected
            && !AllowedTransition(approved.status, r[1].status)
  {
  }

  datatype LoanForm = LoanForm(amount: string, interestRate: string, duration: string)

  /** The loan `handleCreateLoan` builds; `id` and `createdAt` come from
      the clock. */
  function NewLoan(lender: User, form: LoanForm, id: string, createdAt: string): Loan
  {
    Loan(id, lender.id, form.amount, form.interestRate, form.duration, createdAt, Available)
  }

  /** The handler does nothing without a page user or with an empty field. */
  predicate CreateLoanEnabled(session: Option<User>, form: LoanForm)
  {
    LenderUser(session).Some? && form.amount != "" && form.interestRate != "" && form.duration != ""
  }

  /** `handleCreateLoan` on the store. */
  function CreateLoan(store: Store, form: LoanForm, id: string, createdAt: string): (r: Store)
    ensures !CreateLoanEnabled(store.session, form) ==> r == store
    ensures CreateLoanEnabled(store.session, form) ==>
              && |r.loans| == |store.loans| + 1
              && r.loans[..|store.loans|] == store.loans
              && var l := r.loans[|store.loans|];
                 && l.id == id && l.createdAt == createdAt
                 && l.lenderId == store.session.value.id
                 && l.amount == form.amount && l.interestRate == form.interestRate
                 && l.duration == form.duration
                 && l.status == Available
    ensures r.users == store.users && r.apps == store.apps && r.session == store.session
  {
    if CreateLoanEnabled(store.session, form) then
      store.(loans := store.loans + [NewLoan(LenderUser(store.session).value, form, id, createdAt)])
    else
      store
  }

  /** Every stored loan is still on offer. */
  ghost predicate AllAvailable(loans: seq<Loan>)
  {
    forall l :: l in loans ==> l.status == Available
  }

  lemma CreateLoanKeepsAllAvailable(store: Store, form: LoanForm, id: string, createdAt: string)
    requires AllAvailable(store.loans)
    ensures AllAvailable(CreateLoan(store, form, id, createdAt).loans)
  {
  }

  /** Re-reading the store after a creation gives the page's own update
      `[...loans, newLoan]`: the new loan is the last one in the lender's
      view. */
  lemma CreateLoanExtendsLenderView(store: Store, form: LoanForm, id: string, createdAt: string)
    requires CreateLoanEnabled(store.session, form)
    ensures var uid := store.session.value.id;
            var r := CreateLoan(store, form, id, createdAt);
            LenderLoans(r.loans, uid) == LenderLoans(store.loans, uid) + [r.loans[|store.loans|]]
  {
    var uid := store.session.value.id;
    var r := CreateLoan(store, form, id, createdAt);
    var l := r.loans[|store.loans|];
    assert r.loans == store.loans + [l];
    FilterConcat(store.loans, [l], OwnedBy(uid));
    assert Filter([l], OwnedBy(uid)) == [l];
  }
}
