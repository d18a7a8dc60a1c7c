# Bankiti lending marketplace: the client-side store model

Bankiti is a peer-to-peer lending front-end. Users sign up, choose a role
on their profile (lender or borrower), lenders publish loan offers,
borrowers apply to them, and lenders approve or reject the applications.
There is no backend. Each page reads whole collections from the browser's
key-value store, derives its views with filters, and writes the whole
collection back after every change.

This project models that shared state as an immutable
`Store { users, loans, apps, session }`. Every page handler becomes a pure
function on it:

- `Records`: the User, Loan and Application records, the store, pages and
  routes, and the `loans.some` / `loans.find` lookups.
- `Seqs`: the order-keeping filter behind every view, with its membership,
  multiplicity and subsequence contract, and its distribution over `+`.
- `Text`: ECMAScript `trim` (reduced to a blank test), `split(" ")` and
  `join` (each proved to invert the other), and an ASCII `toUpperCase`.
- `Signup`, `Profile`, `Home`, `Lender` and `Borrower`: one module per page.
  Each holds that page's guard, handlers and derived views.
- `Navigation`: every guard together. Following redirects settles after at
  most two steps, and after logout every guarded page sends the browser to
  sign-in.
- `Marketplace`: all handlers as one `Step` on the store, and what holds
  across them. The sign-in page is not part of this model; a `SignIn(k)`
  action stands in for it and puts the `k`-th stored account into the
  session. Over any run, emails stay pairwise distinct and every stored
  loan stays `available`; a sample run from the empty store shows that
  loans and approved applications are reachable. The session's agreement
  with its users record is kept step by step, except by a sign-up that
  reuses the session's id and by a sign-in while two accounts share an id.
  Those two steps can break it, so it is not an invariant of every run.

Ids and timestamps (`Date.now()`, `toISOString()`) are passed in as
parameters and may repeat. Three lemmas show what repeated ids break:
- `Lender.SharedIdLeavesStatusMachine`: rejecting a pending application
  also rewrites an approved one that has the same id.
- `Marketplace.SignUpWithSessionIdBreaksSync`: a sign-up whose new id
  equals the session's id breaks the session agreement.
- `Marketplace.SignInWithSharedIdBreaksSync`: signing in while two stored
  accounts share an id breaks it too.

The status-machine lemma therefore assumes that application ids are
distinct. Routes are returned as values instead of being pushed to the
router.

## Model

| member | source | states |
|---|---|---|
| `Signup.SignUp` | app/signup/page.tsx:33-53 | If the email is already taken, the store is unchanged, the error is "User with this email already exists", and there is no navigation. Otherwise exactly one record is appended after the unchanged old ones. It carries the form's email, name, national id and password, with phone and role "". The error is cleared and the route is `/signin`. Loans, applications and the session are untouched. |
| `Signup.SignUpKeepsEmailsDistinct` | app/signup/page.tsx:34-50 | If stored emails are pairwise distinct before a sign-up, they still are after it. |
| `Signup.SignUpTwiceRefused` | app/signup/page.tsx:34-38 | Once a sign-up succeeds, the same form is refused and changes nothing. |
| `Profile.LoadProfile` | app/profile/page.tsx:35-51 | With no session the page routes to `/signin` and shows no form. Otherwise the form is pre-filled with the session's phone number and role. |
| `Profile.WithContact` | app/profile/page.tsx:65-69 | The updated record has the form's phone number and role and keeps every other field. |
| `Profile.UpdateUsers` | app/profile/page.tsx:63-72 | The length is kept. Every record whose id equals the session id gets the form's contact fields. Every other record is returned unchanged in its place. |
| `Profile.UpdateProfile` | app/profile/page.tsx:53-80 | The users map is applied for the session id, and the new session is the old one with the form's phone number and role. Loans and applications are unchanged. Without a session nothing changes. |
| `Profile.UpdateProfileSyncsSession` | app/profile/page.tsx:63-79 | After an update, the session and every users record with its id agree on phone number and role, and these are the form's values. |
| `Profile.Logout` | app/profile/page.tsx:91-94 | The session is removed, the collections are unchanged, and the route is `/signin`. |
| `Home.HomeGuard` | app/home/page.tsx:22-42 | No session goes to `/signin`, "lender" goes to `/lender`, "borrower" goes to `/borrower`, and any other role (including "") stays on home. |
| `Home.CompletionPromptIffBlank` | app/home/page.tsx:133 | The completion prompt is shown exactly when the phone number or the role is empty. |
| `Home.ProfileUpdateHidesPrompt` | app/profile/page.tsx:78-80 | After a profile update with a non-empty phone and role, the prompt is hidden for the updated session. |
| `Home.GetInitials` | app/home/page.tsx:52-59 | The result is the upper-cased first letters of the first non-empty space-separated words: exactly two when there are at least two such words, otherwise one per word (one or none). An empty name gives "". |
| `Home.InitialsOfOneWord` | app/home/page.tsx:52-59 | A single word gives its upper-cased first letter. |
| `Home.InitialsOfTwoWords` | app/home/page.tsx:52-59 | "first last" gives the two upper-cased first letters. |
| `Home.InitialsIgnoreLaterWords` | app/home/page.tsx:52-59 | Words after the second do not change the initials. |
| `Text.JoinSplit` | app/home/page.tsx:54 | Joining the pieces of `split(sep)` with the separator gives back the original string. |
| `Text.SplitJoin` | app/home/page.tsx:54 | Splitting a join of separator-free pieces gives back the pieces. |
| `Text.TrimEmptyIffBlank` | app/borrower/page.tsx:96 | `trim()` is empty exactly when every character is ECMAScript whitespace. |
| `Records.FindLoan` | app/borrower/page.tsx:302 | It returns None exactly when no loan has the id. Otherwise it returns a stored loan with that id, and no earlier loan has the id. |
| `Seqs.Filter` | app/borrower/page.tsx:83 | The result is no longer than the input, and a value occurs in it exactly when it occurs in the input and satisfies the predicate. |
| `Seqs.FilterMultiplicity` | app/borrower/page.tsx:83 | Each value that satisfies the predicate occurs in the result as often as in the input; any other value does not occur. |
| `Seqs.FilterKeepsOrder` | app/borrower/page.tsx:83 | The result is a subsequence of the input: kept elements stay in their stored order. |
| `Seqs.FilterNoneMatch` | app/borrower/page.tsx:83 | When no element satisfies the predicate the result is empty. |
| `Seqs.FilterConcat` | app/lender/page.tsx:132 | Filtering `a + b` gives the filter of `a` followed by the filter of `b`. |
| `Lender.LenderGuard` | app/lender/page.tsx:65-76 | No session goes to `/signin`, a role other than "lender" goes to `/home`, and a lender stays. |
| `Lender.LenderUser` | app/lender/page.tsx:72-78 | The page user is set exactly when the guard lets the page stay. It is then the session, with role "lender". |
| `Lender.LenderLoans` | app/lender/page.tsx:83-89 | A loan is listed exactly when it is stored and its lenderId is the user id; the list is no longer than the store's. |
| `Lender.LenderLoansExact` | app/lender/page.tsx:87 | Each such loan is listed as often as it is stored, other loans never, and the list keeps the stored order. |
| `Lender.LenderApplications` | app/lender/page.tsx:148 | An application is listed exactly when it is stored and its loanId is the id of one of the page's loans. |
| `Lender.LenderApplicationsExact` | app/lender/page.tsx:148 | Each such application is listed as often as it is stored, others never, in stored order. |
| `Lender.LenderApplicationsJoin` | app/lender/page.tsx:148 | Read against the store, an application is listed exactly when a stored loan of this lender has its loanId. |
| `Lender.SetStatus` | app/lender/page.tsx:98-112 | The length is kept. Every application with the id gets the new status with all other fields kept. Every other application is unchanged. |
| `Lender.Decide` | app/lender/page.tsx:98-112 | Approve sets "approved" and reject sets "rejected" on every application with the id. Only the status changes, and other applications are identical. |
| `Lender.DecideIdempotent` | app/lender/page.tsx:99-109 | Approving (or rejecting) the same id twice gives the same list as doing it once. |
| `Lender.DecisionsFollowStatusMachine` | app/lender/page.tsx:396-409 | A button click on a pending application moves it to the decided terminal status. If application ids are distinct, no application moves outside pending → approved / rejected. |
| `Lender.SharedIdLeavesStatusMachine` | app/lender/page.tsx:99-101 | With two applications sharing an id, rejecting the pending one moves the approved one to rejected. |
| `Lender.CreateLoan` | app/lender/page.tsx:114-130 | There is no change without a page user or when amount, interest rate or duration is empty. Otherwise one loan is appended after the unchanged old ones, carrying the lender's id, the form values, the given id and time, and status "available". Users, applications and the session are untouched. |
| `Lender.CreateLoanKeepsAllAvailable` | app/lender/page.tsx:117-130 | If every stored loan is available, that stays true after a creation. |
| `Lender.CreateLoanExtendsLenderView` | app/lender/page.tsx:127-132 | Re-deriving the lender's view after a creation gives the old view followed by the new loan, which is the page's own `[...loans, newLoan]`. |
| `Borrower.BorrowerGuard` | app/borrower/page.tsx:61-72 | No session goes to `/signin`, a role other than "borrower" goes to `/home`, and a borrower stays. |
| `Borrower.BorrowerUser` | app/borrower/page.tsx:68-74 | The page user is set exactly when the guard lets the page stay. It is then the session, with role "borrower". |
| `Borrower.AvailableLoans` | app/borrower/page.tsx:79-85 | A loan is listed exactly when it is stored with status "available"; the list is no longer than the store's. |
| `Borrower.AvailableLoansExact` | app/borrower/page.tsx:83 | Each available loan is listed as often as it is stored, funded ones never, in stored order. |
| `Borrower.BorrowerApplications` | app/borrower/page.tsx:87-93 | An application is listed exactly when it is stored and its borrowerId is the user id. |
| `Borrower.BorrowerApplicationsExact` | app/borrower/page.tsx:91 | Each of the user's applications is listed as often as it is stored, others never, in stored order. |
| `Borrower.StatusCount` | app/borrower/page.tsx:206-219 | The count is the number of positions in the list holding an application with the status, counted one by one (`Tally`). It is at most the number of applications, and zero exactly when no application has the status. |
| `Borrower.FilterStatusTally` | app/borrower/page.tsx:207 | The length of the status filter equals that position count. |
| `Borrower.StatusCountsPartition` | app/borrower/page.tsx:197-219 | The pending, approved and rejected counts add up to the number of the borrower's applications. |
| `Borrower.PendingPlusApprovedBounded` | app/borrower/page.tsx:197-219 | The pending count plus the approved count is at most the number of the borrower's applications. |
| `Borrower.Apply` | app/borrower/page.tsx:95-112 | There is no change without a page user, without a selected loan, or with a purpose that trims to nothing. Otherwise one pending application is appended after the unchanged old ones. It carries the selected loan's id, the borrower's id, name and email, the purpose, and the given id and time. Users, loans and the session are untouched. |
| `Borrower.HasAppliedForLoan` | app/borrower/page.tsx:134-136 | True exactly when one of the page's applications has the loan's id. |
| `Borrower.ApplyNeedsNonBlankPurpose` | app/borrower/page.tsx:96 | The apply guard holds exactly when there is a page user and a selected loan and the purpose has a non-whitespace character. |
| `Borrower.ApplyMarksLoanApplied` | app/borrower/page.tsx:109-136 | After applying, the re-derived view is the old view followed by the new application. `hasAppliedForLoan` is then true for the loan, and its button is disabled. |
| `Borrower.ApplyThroughButton` | app/borrower/page.tsx:274-280 | A loan already applied for has its button disabled, so a click-and-submit changes nothing. An enabled button opens the dialog, and submitting it is exactly the apply handler for that loan with the typed purpose. Without a borrower nothing changes. Only applications change. |
| `Borrower.ApplyOnceThroughButton` | app/borrower/page.tsx:244-280 | Start with no application from the borrower for the loan and go through the button twice. At most one application for the pair results, and exactly one when the first purpose was not blank. |
| `Borrower.ApplyHandlerTwiceStoresTwo` | app/borrower/page.tsx:95-112 | The handler itself does not deduplicate: submitting twice for the same loan stores two applications for it. |
| `Borrower.RenderedApplications` | app/borrower/page.tsx:301-303 | Each rendered entry pairs one of the borrower's applications with the first available loan that has its loanId. |
| `Borrower.RenderedFollowsApplications` | app/borrower/page.tsx:301-303 | The rendered applications are, entry by entry, the borrower's applications filtered by "some available loan has its loanId", so their order and repetitions are those of the list. |
| `Borrower.RenderedIffLoanAvailable` | app/borrower/page.tsx:301-303 | An application is rendered exactly when some available loan has its loanId. Otherwise it is skipped. |
| `Navigation.Guard` | app/lender/page.tsx:65-76 | Dispatches to the home (app/home/page.tsx:22-42), profile (app/profile/page.tsx:35-43), lender (app/lender/page.tsx:65-76) and borrower (app/borrower/page.tsx:61-72) guards. Every guarded page sends a missing session to `/signin`. The profile page accepts any session, and no guard redirects a page to itself. |
| `Navigation.NoRedirectCycle` | app/home/page.tsx:35-41 | After at most two redirects the shown page's guard stays. For home and the dashboards that page is `/lender` for a lender, `/borrower` for a borrower, and `/home` for any other role. |
| `Navigation.LogoutGuardsEveryPage` | app/profile/page.tsx:91-93 | After logout every guarded page routes to `/signin`. |
| `Marketplace.Step` | app/lender/page.tsx:127-130 | Dispatches to the sign-up handler (app/signup/page.tsx:33-53), the profile save and logout (app/profile/page.tsx:53-80, 91-94), loan creation and the decisions (app/lender/page.tsx:98-130) and the apply handler (app/borrower/page.tsx:95-112). Loan creation is the only action that writes loans. Only sign-up and profile update write users, and only sign-in, profile update and logout write the session. Signing in with a stored account makes it the session; with no such account nothing changes. |
| `Marketplace.StepPreservesInvariant` | app/lender/page.tsx:117-130 | Each action keeps emails pairwise distinct and every stored loan available. |
| `Marketplace.RunPreservesInvariant` | app/lender/page.tsx:117-130 | Any sequence of actions keeps the invariant. |
| `Marketplace.ReachableStoresKeepInvariant` | app/lender/page.tsx:124 | From the empty store, emails stay distinct and every loan ever stored has status "available". |
| `Marketplace.StepKeepsSessionInSync` | app/profile/page.tsx:63-79 | Once the session and its users record agree on phone number and role, every action keeps that agreement. The exceptions are a sign-up that reuses the session's id and a sign-in while two stored accounts share an id. |
| `Marketplace.SignUpWithSessionIdBreaksSync` | app/signup/page.tsx:42-49 | A sign-up whose new id equals the session's id breaks the agreement. |
| `Marketplace.SignInWithSharedIdBreaksSync` | app/profile/page.tsx:63-72 | With two stored accounts sharing an id, signing in as one of them leaves the session out of agreement with the other. |
| `Marketplace.LoanAndApprovalReachable` | app/lender/page.tsx:114-130 | From the empty store, a lender signing up, signing in, choosing the role and publishing an offer, then a borrower doing the same and applying, followed by an approval, stores exactly that loan and one approved application for it. |

## Left out

- Persistence: `localStorage`, `JSON.parse` and `JSON.stringify`, and the exceptions they can raise, including the sign-up page's "Something went wrong" branch. The store is an in-memory record.
- Staleness across tabs and page state: the lender page writes back the `applications` it read at mount. The model applies approve and reject to the store's current applications instead. Lost updates between tabs are a concurrency concern.
- Router side effects, the loading flags, the dialogs' open state, the success banner's `setTimeout`, and rendering. The model keeps only the rendered facts that carry logic: which applications the borrower's tab shows, the apply button's enabled state, the lender's decision controls, the profile-completion prompt and the initials.
- The clock: `Date.now()` ids and `toISOString()` timestamps are opaque parameters.
- Floating point: `parseFloat` and `parseInt` of the loan fields are not modelled. A loan keeps the text the lender typed. The repayment formula, the lender's totals and average interest, and `toLocaleString` are left out.
- Profile.LoadProfile: the `|| ""` fallback for an absent phone number or role. A modelled session record always carries both strings, and on a string `|| ""` changes nothing.
- Home.GetInitials: `toUpperCase` is modelled for ASCII letters only. Other characters are kept as they are; Unicode case mapping is left out. JavaScript's `n[0]` and `slice(0, 2)` count UTF-16 code units, while a model string is a sequence of Unicode scalar values: for a name starting with a character outside the Basic Multilingual Plane (an emoji, say) the page shows a lone high surrogate where the model keeps the whole character.
- The sign-in page is not part of this model. It is where a session is created: the `SignIn` action of `Marketplace.Step` stands in for it without any credential check, and `Navigation.Guard` treats it as a page that stays.
- The landing page (`app/page.tsx`) is static markup with no logic.
- The `getInitials` copies on the profile, lender and borrower pages are identical to the home page's, so only the home page's is modelled.
