/** The user profile aggregate: its fail-fast validating constructor and the
    age derived from the date of birth. */
module UserProfiles {
  import opened Base
  import opened Calendar
  import Text
  import opened Contacts
  import opened ProfileBios

  datatype UserProfile = UserProfile(
    id: Guid,
    username: string,
    firstName: string,
    middleName: string,
    lastName: string,
    dateOfBirth: DateTime,
    contact: Contact,
    bio: ProfileBio,
    createdAt: DateTime,
    updatedAt: Option<DateTime>)

  /** The rules whose failure raises an `ArgumentException`, one per message. */
  datatype Rule = UsernameRule | FirstNameRule | MiddleNameRule | LastNameRule | DateOfBirthRule

  /** The parameters whose absence raises an `ArgumentNullException`. */
  datatype Param = ContactParam | BioParam

  datatype ProfileError =
    | Invalid(rule: Rule)        // ArgumentException
    | NullArgument(param: Param) // ArgumentNullException
    | ClockOutOfRange            // DateTime.AddYears(-18) leaves the representable range

  /** The earliest accepted date of birth. */
  const EarliestBirth: DateTime := Date(1900, 1, 1)

  /** The youngest accepted age, in whole years. */
  const MinimumAge := 18

  // ----- Username -----

  /** The character class `[a-zA-Z0-9_]`. */
  predicate IsWordChar(c: char) {
    ('a' <= c <= 'z') || ('A' <= c <= 'Z') || ('0' <= c <= '9') || c == '_'
  }

  predicate AllWordChars(s: string) {
    forall i :: 0 <= i < |s| ==> IsWordChar(s[i])
  }

  /** `^[a-zA-Z0-9_]+$` as .NET evaluates it without options: `$` also matches
      just before a final line feed, so one trailing "\n" gets through. */
  predicate MatchesUsernamePatternDotNet(s: string) {
    (|s| >= 1 && AllWordChars(s))
    || (|s| >= 2 && s[|s| - 1] == '\n' && AllWordChars(s[..|s| - 1]))
  }

  /** The same pattern anchored at the very end of the string. */
  predicate MatchesUsernamePattern(s: string) {
    |s| >= 1 && AllWordChars(s)
  }

  /** The username test of the constructor as written. */
  predicate UsernameOkAsWritten(s: string) {
    !Text.IsBlank(s) && 3 <= |s| <= 20 && MatchesUsernamePatternDotNet(s)
  }

  /** The username test the constructor's message describes; this is the one the model uses. */
  predicate UsernameOk(s: string) {
    !Text.IsBlank(s) && 3 <= |s| <= 20 && MatchesUsernamePattern(s)
  }

  /** A username is accepted exactly when it has 3 to 20 characters, all ASCII
      letters, digits or underscores. */
  lemma UsernameOkIff(s: string)
    ensures UsernameOk(s) <==> 3 <= |s| <= 20 && AllWordChars(s)
  {
    if 3 <= |s| && AllWordChars(s) {
      assert IsWordChar(s[0]);
      assert !Text.IsWhiteSpace(s[0]);
    }
  }

  /** What the constructor as written accepts beyond `UsernameOk`: exactly the
      strings of 2 to 19 word characters followed by one line feed; "abc\n" is one. */
  lemma UsernameNewlineQuirk(s: string)
    ensures UsernameOkAsWritten(s) <==>
      UsernameOk(s) || (3 <= |s| <= 20 && s[|s| - 1] == '\n' && AllWordChars(s[..|s| - 1]))
    ensures UsernameOkAsWritten("abc\n") && !UsernameOk("abc\n")
  {
    if 3 <= |s| && s[|s| - 1] == '\n' && AllWordChars(s[..|s| - 1]) {
      assert s[0] == s[..|s| - 1][0];
      assert IsWordChar(s[0]);
    }
    var q := "abc\n";
    assert q[..3] == "abc";
    assert !IsWordChar(q[3]);
    assert !Text.IsWhiteSpace(q[0]);
  }

  // ----- Names -----

  predicate FirstNameOk(s: string) { !Text.IsBlank(s) && 2 <= |s| <= 50 }

  predicate MiddleNameOk(s: string) { !Text.IsBlank(s) && 1 <= |s| <= 50 }

  predicate LastNameOk(s: string) { !Text.IsBlank(s) && 2 <= |s| <= 50 }

  /** The first and last name follow the same rule; the middle-name rule differs
      from it only by also admitting a single non-whitespace character. */
  lemma NameRulesCompared(s: string)
    ensures FirstNameOk(s) <==> LastNameOk(s)
    ensures FirstNameOk(s) ==> MiddleNameOk(s)
    ensures MiddleNameOk(s) && !FirstNameOk(s) <==> |s| == 1 && !Text.IsWhiteSpace(s[0])
  {
  }

  /** Each name rule on its own: a length window and one character that is not
      whitespace. Surrounding whitespace is neither trimmed nor refused, so " A"
      is a first name while "A" and two spaces are not. */
  lemma NameRulesIff(s: string)
    ensures FirstNameOk(s) <==> 2 <= |s| <= 50 && exists i :: 0 <= i < |s| && !Text.IsWhiteSpace(s[i])
    ensures MiddleNameOk(s) <==> 1 <= |s| <= 50 && exists i :: 0 <= i < |s| && !Text.IsWhiteSpace(s[i])
    ensures LastNameOk(s) <==> 2 <= |s| <= 50 && exists i :: 0 <= i < |s| && !Text.IsWhiteSpace(s[i])
    ensures FirstNameOk(" A") && !FirstNameOk("A") && MiddleNameOk("A") && !MiddleNameOk("  ")
  {
    assert !Text.IsWhiteSpace(" A"[1]) && !Text.IsWhiteSpace("A"[0]);
    assert Text.IsBlank("  ") by {
      assert Text.IsWhiteSpace("  "[0]) && Text.IsWhiteSpace("  "[1]);
    }
  }

  // ----- Age -----

  /** `Age`: the difference of the calendar years, less one when `now`, moved
      back into the birth year, still falls before the date of birth. */
  function Age(dob: DateTime, now: DateTime): (age: int)
    ensures age == now.year - dob.year || age == now.year - dob.year - 1
  {
    var anniversary := AddYears(now, -(now.year - dob.year)).value;
    if Before(anniversary, dob) then now.year - dob.year - 1 else now.year - dob.year
  }

  /** Someone is at least `k` years old exactly when they were born no later
      than `now` moved back `k` years: the same year arithmetic the constructor's
      18-year test uses. */
  lemma AgeAtLeastIff(dob: DateTime, now: DateTime, k: int)
    requires 1 <= now.year - k <= 9999
    ensures Age(dob, now) >= k <==> !Before(AddYears(now, -k).value, dob)
  {
    var d := now.year - dob.year;
    var cutoff := AddYears(now, -k).value;
    if k < d {
      assert Before(dob, cutoff);
    } else if k > d {
      assert Before(cutoff, dob);
    } else {
      assert cutoff == AddYears(now, -(now.year - dob.year)).value;
    }
  }

  // ----- Construction -----

  /** The date-of-birth window. The source rejects a birth instant at or after
      `now` moved back 18 years. Birth dates are calendar dates (midnight) and
      `now` is taken to lie after midnight of its day. Under those readings a
      birth date passes when it is no later than that day 18 years back, the
      18th birthday included, and not before 1900-01-01. */
  function CheckDateOfBirth(dob: DateTime, now: DateTime): (r: Result<(), ProfileError>)
    ensures r.Ok? <==>
      1 <= now.year - MinimumAge && !Before(AddYears(now, -MinimumAge).value, dob) && !Before(dob, EarliestBirth)
    ensures r.Err? ==> r.error == (if now.year - MinimumAge < 1 then ClockOutOfRange else Invalid(DateOfBirthRule))
  {
    var cutoff := AddYears(now, -MinimumAge);
    if cutoff.None? then Err(ClockOutOfRange)
    else if Before(cutoff.value, dob) || Before(dob, EarliestBirth) then Err(Invalid(DateOfBirthRule))
    else Ok(())
  }

  /** The four name checks, which all run before the date of birth is looked at. */
  predicate NamesOk(username: string, firstName: string, middleName: string, lastName: string) {
    UsernameOk(username) && FirstNameOk(firstName) && MiddleNameOk(middleName) && LastNameOk(lastName)
  }

  /** The constructor. The field checks run in a fixed order and the first
      failure decides the error; a missing contact or bio is reported only once
      every field check has passed. `id` and `now` are the fresh GUID and the
      current instant the initialisers draw. */
  function NewUserProfile(id: Guid, username: string, firstName: string, middleName: string, lastName: string,
                          dateOfBirth: DateTime, contact: Option<Contact>, bio: Option<ProfileBio>,
                          now: DateTime): (r: Result<UserProfile, ProfileError>)
    ensures r == Err(Invalid(UsernameRule)) <==> !UsernameOk(username)
    ensures r == Err(Invalid(FirstNameRule)) <==> UsernameOk(username) && !FirstNameOk(firstName)
    ensures r == Err(Invalid(MiddleNameRule)) <==>
      UsernameOk(username) && FirstNameOk(firstName) && !MiddleNameOk(middleName)
    ensures r == Err(Invalid(LastNameRule)) <==>
      UsernameOk(username) && FirstNameOk(firstName) && MiddleNameOk(middleName) && !LastNameOk(lastName)
    ensures r == Err(Invalid(DateOfBirthRule)) <==>
      NamesOk(username, firstName, middleName, lastName)
      && CheckDateOfBirth(dateOfBirth, now) == Err(Invalid(DateOfBirthRule))
    ensures r == Err(ClockOutOfRange) <==>
      NamesOk(username, firstName, middleName, lastName)
      && CheckDateOfBirth(dateOfBirth, now) == Err(ClockOutOfRange)
    ensures r == Err(NullArgument(ContactParam)) <==>
      NamesOk(username, firstName, middleName, lastName)
      && CheckDateOfBirth(dateOfBirth, now).Ok? && contact == None
    ensures r == Err(NullArgument(BioParam)) <==>
      NamesOk(username, firstName, middleName, lastName)
      && CheckDateOfBirth(dateOfBirth, now).Ok? && contact != None && bio == None
    ensures r.Ok? <==>
      NamesOk(username, firstName, middleName, lastName)
      && CheckDateOfBirth(dateOfBirth, now).Ok? && contact != None && bio != None
    ensures r.Ok? ==>
      r.value.username == username && r.value.firstName == firstName && r.value.middleName == middleName
      && r.value.lastName == lastName && r.value.dateOfBirth == dateOfBirth
      && Some(r.value.contact) == contact && Some(r.value.bio) == bio
      && r.value.id == id && r.value.createdAt == now && r.value.updatedAt == None
    ensures r.Ok? ==> Age(r.value.dateOfBirth, now) >= MinimumAge
  {
    if !UsernameOk(username) then Err(Invalid(UsernameRule))
    else if !FirstNameOk(firstName) then Err(Invalid(FirstNameRule))
    else if !MiddleNameOk(middleName) then Err(Invalid(MiddleNameRule))
    else if !LastNameOk(lastName) then Err(Invalid(LastNameRule))
    else match CheckDateOfBirth(dateOfBirth, now)
      case Err(e) => Err(e)
      case Ok(_) =>
        if contact.None? then Err(NullArgument(ContactParam))
        else if bio.None? then Err(NullArgument(BioParam))
        else
          AgeAtLeastIff(dateOfBirth, now, MinimumAge);
          Ok(UserProfile(id, username, firstName, middleName, lastName, dateOfBirth,
                         contact.value, bio.value, now, None))
  }

  /** The date-of-birth window in terms of age: a birth date passes exactly
      when it is not before 1900 and `Age` at `now` is at least 18. */
  lemma DateOfBirthWindow(dob: DateTime, now: DateTime)
    requires now.year > MinimumAge
    ensures CheckDateOfBirth(dob, now).Ok? <==> !Before(dob, EarliestBirth) && Age(dob, now) >= MinimumAge
  {
    AgeAtLeastIff(dob, now, MinimumAge);
  }

  /** Someone whose 18th birthday is today passes the check, and someone born
      the day after that date does not. */
  lemma EighteenthBirthday(now: DateTime)
    requires now.year >= 1900 + MinimumAge && !(now.month == 2 && now.day == 29)
    requires now.day < DaysInMonth(now.year - MinimumAge, now.month)
    ensures CheckDateOfBirth(Date(now.year - MinimumAge, now.month, now.day), now).Ok?
    ensures CheckDateOfBirth(Date(now.year - MinimumAge, now.month, now.day + 1), now).Err?
  {
  }
}
