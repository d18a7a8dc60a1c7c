/** The guards of all pages together: where each page sends the browser for
    a given session, and why following them never loops. */
module Navigation {
  import opened Records
  import Home
  import Profile
  import Lender
  import Borrower

  /** The route a page's mount effect asks for. The sign-in page is not part
      of this model; it is treated as a page that stays. */
  function Guard(page: Page, session: Option<User>): (r: Route)
    ensures page == SignInPage ==> r == Stay
    ensures page != SignInPage && session.None? ==> r == Go(SignInPage)
    ensures page == ProfilePage && session.Some? ==> r == Stay
    ensures r.Go? ==> r.target != page
  {
    match page
    case SignInPage => Stay
    case HomePage => Home.HomeGuard(session)
    case ProfilePage => if Profile.LoadProfile(session).Redirect? then Profile.LoadProfile(session).route else Stay
    case LenderPage => Lender.LenderGuard(session)
    case BorrowerPage => Borrower.BorrowerGuard(session)
  }

  /** The page the browser shows after one guard has run. */
  function Next(page: Page, session: Option<User>): Page
  {
    match Guard(page, session)
    case Stay => page
    case Go(target) => target
  }

  /** Home and the two dashboards: the pages whose guards look at the role. */
  predicate IsRoleRouted(page: Page)
  {
    page == HomePage || page == LenderPage || page == BorrowerPage
  }

  /** At most two redirects reach a page whose guard lets it stay: the
      dashboards send a wrong role home, and home sends only the two known
      roles to their dashboards, whose guards then accept them. */
  lemma NoRedirectCycle(page: Page, session: Option<User>)
    ensures Guard(Next(Next(page, session), session), session) == Stay
    ensures session.Some? && session.value.role == LenderRole && IsRoleRouted(page) ==>
              Next(Next(page, session), session) == LenderPage
    ensures session.Some? && session.value.role == BorrowerRole && IsRoleRouted(page) ==>
              Next(Next(page, session), session) == BorrowerPage
    ensures session.Some? && session.value.role != LenderRole && session.value.role != BorrowerRole &&
            IsRoleRouted(page) ==>
              Next(Next(page, session), session) == HomePage
  {
  }

  /** After logout every guarded page sends the browser to sign-in. */
  lemma LogoutGuardsEveryPage(store: Store, page: Page)
    requires page != SignInPage
    ensures Guard(page, Profile.Logout(store).0.session) == Go(SignInPage)
  {
  }
}
