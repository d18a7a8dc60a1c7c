/** The home page: the role-based redirect on mount, the prompt to complete
    the profile, and the avatar initials. */
module Home {
  import opened Records
  import opened Text
  import Profile

  /** The mount effect: no session goes to sign-in, the two known roles go
      to their dashboards, and every other role (blank included) stays. */
  function HomeGuard(session: Option<User>): (r: Route)
    ensures session.None? ==> r == Go(SignInPage)
    ensures session.Some? && session.value.role == LenderRole ==> r == Go(LenderPage)
    ensures session.Some? && session.value.role == BorrowerRole ==> r == Go(BorrowerPage)
    ensures session.Some? && session.value.role != LenderRole && session.value.role != BorrowerRole ==> r == Stay
  {
    match session
    case None => Go(SignInPage)
    case Some(u) =>
      if u.role == LenderRole then Go(LenderPage)
      else if u.role == BorrowerRole then Go(BorrowerPage)
      else Stay
  }

  /** JavaScript truthiness of a string. */
  predicate Truthy(s: string)
  {
    |s| > 0
  }

  /** `!user.phoneNumber || !user.role`: the prompt to complete the profile
      is rendered. */
  predicate ShowsCompletionPrompt(u: User)
  {
    !Truthy(u.phoneNumber) || !Truthy(u.role)
  }

  /** The prompt shows exactly when the phone number or the role is blank. */
  lemma CompletionPromptIffBlank(u: User)
    ensures ShowsCompletionPrompt(u) <==> u.phoneNumber == "" || u.role == ""
  {
  }

  /** A profile update that fills in both fields hides the prompt for the
      updated session. */
  lemma ProfileUpdateHidesPrompt(store: Store, form: Profile.ProfileForm)
    requires store.session.Some?
    requires form.phoneNumber != "" && form.role != ""
    ensures !ShowsCompletionPrompt(Profile.UpdateProfile(store, form).session.value)
  {
  }

  /** The first character of every non-empty word; `n[0]` of an empty word is
      `undefined`, which `join` turns into nothing. */
  function FirstLetters(words: seq<string>): (r: string)
    ensures |r| <= |words|
  {
    if |words| == 0 then ""
    else (if |words[0]| == 0 then "" else [words[0][0]]) + FirstLetters(words[1..])
  }

  /** Concatenated word lists give concatenated letters. */
  lemma {:induction false} FirstLettersConcat(x: seq<string>, y: seq<string>)
    ensures FirstLetters(x + y) == FirstLetters(x) + FirstLetters(y)
  {
    if |x| > 0 {
      assert (x + y)[0] == x[0];
      assert (x + y)[1..] == x[1..] + y;
      FirstLettersConcat(x[1..], y);
    } else {
      assert x + y == y;
    }
  }

  /** `name.split(" ").map(n => n[0]).join("").toUpperCase().slice(0, 2)`:
      at most two characters, the upper-cased first letters of the first
      non-empty words. */
  function GetInitials(name: string): (r: string)
    ensures |r| == if |FirstLetters(Split(name, ' '))| < 2 then |FirstLetters(Split(name, ' '))| else 2
    ensures forall i :: 0 <= i < |r| ==> r[i] == UpperChar(FirstLetters(Split(name, ' '))[i])
    ensures name == "" ==> r == ""
  {
    var letters := Upper(FirstLetters(Split(name, ' ')));
    if |letters| <= 2 then letters else letters[..2]
  }

  /** A single word gives its upper-cased first letter. */
  lemma InitialsOfOneWord(w: string)
    requires |w| > 0 && ' ' !in w
    ensures GetInitials(w) == [UpperChar(w[0])]
  {
    SplitNoSeparator(w, ' ');
    assert FirstLetters([w]) == [w[0]];
  }

  /** A full name of two words gives both upper-cased first letters. */
  lemma InitialsOfTwoWords(a: string, b: string)
    requires |a| > 0 && ' ' !in a
    requires |b| > 0 && ' ' !in b
    ensures GetInitials(a + " " + b) == [UpperChar(a[0]), UpperChar(b[0])]
  {
    SplitNoSeparator(b, ' ');
    SplitAtFirstSeparator(a, b, ' ');
    FirstLettersConcat([a], [b]);
    assert FirstLetters([a]) == [a[0]];
    assert FirstLetters([b]) == [b[0]];
  }

  /** Words after the second do not change the initials. */
  lemma InitialsIgnoreLaterWords(a: string, b: string, rest: string)
    requires |a| > 0 && ' ' !in a
    requires |b| > 0 && ' ' !in b
    ensures GetInitials(a + " " + b + " " + rest) == [UpperChar(a[0]), UpperChar(b[0])]
  {
    var name := a + " " + b + " " + rest;
    assert name == a + [' '] + (b + [' '] + rest);
    SplitAtFirstSeparator(b, rest, ' ');
    SplitAtFirstSeparator(a, b + [' '] + rest, ' ');
    assert Split(name, ' ') == [a, b] + Split(rest, ' ');
    FirstLettersConcat([a, b], Split(rest, ' '));
    FirstLettersConcat([a], [b]);
    assert [a, b] == [a] + [b];
    assert FirstLetters([a]) == [a[0]];
    assert FirstLetters([b]) == [b[0]];
  }
}
