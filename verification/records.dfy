/** The four record shapes the pages read from and write back to the
    browser's key-value store, the in-memory store that stands for it,
    and the routes a page can send the browser to. */
module Records {

  datatype Option<+T> = None | Some(value: T)

  /** A registered account. `role` is free text: "lender", "borrower", or ""
      until the profile page sets it; the pages compare it as a string. */
  datatype User = User(
    id: string,
    email: string,
    fullName: string,
    nationalId: string,
    password: string,
    phoneNumber: string,
    role: string,
    createdAt: string)

  /** `Funded` is declared by the source's type but never written. */
  datatype LoanStatus = Available | Funded

  /** A loan offer. `amount`, `interestRate` and `duration` hold the text the
      lender typed; the number parsing of the source is not modelled. */
  datatype Loan = Loan(
    id: string,
    lenderId: string,
    amount: string,
    interestRate: string,
    duration: string,
    createdAt: string,
    status: LoanStatus)

  datatype ApplicationStatus = Pending | Approved | Rejected

  /** A borrower's request against a loan; name and email are copied from the
      borrower when the application is made. */
  datatype Application = Application(
    id: string,
    loanId: string,
    borrowerId: string,
    borrowerName: string,
    borrowerEmail: string,
    purpose: string,
    appliedAt: string,
    status: ApplicationStatus)

  /** The whole persisted state: the users, loans and applications
      collections and the signed-in user's session copy. */
  datatype Store = Store(
    users: seq<User>,
    loans: seq<Loan>,
    apps: seq<Application>,
    session: Option<User>)

  /** The store before anything has been written. */
  const EmptyStore: Store := Store([], [], [], None)

  datatype Page = SignInPage | HomePage | ProfilePage | LenderPage | BorrowerPage

  /** What a page's guard or handler asks of the router. */
  datatype Route = Stay | Go(target: Page)

  /** `loans.some(loan => loan.id === loanId)`. */
  predicate HasLoanWithId(loans: seq<Loan>, loanId: string)
  {
    exists l :: l in loans && l.id == loanId
  }

  /** `loans.find(l => l.id === loanId)`: the first loan with that id. */
  function FindLoan(loans: seq<Loan>, loanId: string): (r: Option<Loan>)
    ensures r.None? <==> !HasLoanWithId(loans, loanId)
    ensures r.Some? ==> r.value.id == loanId && r.value in loans
    ensures r.Some? ==> exists k :: 0 <= k < |loans| && loans[k] == r.value &&
                                    forall j :: 0 <= j < k ==> loans[j].id != loanId
  {
    if |loans| == 0 then None
    else if loans[0].id == loanId then Some(loans[0])
    else
      var r := FindLoan(loans[1..], loanId);
      assert forall l :: l in loans && l != loans[0] ==> l in loans[1..];
      if r.Some? then
        var k :| 0 <= k < |loans[1..]| && loans[1..][k] == r.value &&
                 forall j :: 0 <= j < k ==> loans[1..][j].id != loanId;
        assert loans[k + 1] == r.value;
        r
      else r
  }

  const LenderRole: string := "lender"
  const BorrowerRole: string := "borrower"
}
