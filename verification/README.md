# MatchDotCom profile core, modelled in Dafny

This project models the algorithmic core of the MatchDotCom dating service:

- the **user profile aggregate**: the `UserProfile` constructor validates the
  username, the three names and the date of birth, fail-fast and in a fixed
  order. A missing contact or bio is a separate error. `Age` is derived from the
  date of birth and the current instant.
- the **profile value objects** `Address`, `Contact` and `ProfileBio`. Their
  constructors copy their arguments. Their validity is declared separately by
  data-annotation attributes (`[Required]`, `[MinLength]`, `[MaxLength]`,
  `[Phone]`, `[EmailAddress]`). The `GenderOptions` and `Interests`
  enumerations have fixed integer ordinals.
- the **geocoder**. It cleans the address text and asks an external service.
  A decision tree over the answer keeps the first result. Otherwise it falls
  back to Dublin city centre, with random jitter for addresses that mention
  Dublin.
- the **search service**. One order-preserving pass keeps the profiles whose
  age lies in the requested range and whose address lies within a radius of a
  location. Distance is the Haversine great-circle distance.

Everything is immutable data and pure functions. The current instant (`now`),
fresh GUIDs, the HTTP exchange, the JSON deserialiser, `double.TryParse`, the
random draws, the `[Phone]`/`[EmailAddress]` format rules and the
trigonometric functions are all parameters.

Modules (one file each): `Base` (option/result types, GUID), `Text` (.NET
whitespace, `Trim`, `Replace("  ", " ")`, `ToLower`, `Contains`), `Calendar`
(dates, `AddYears`), `Annotations` (the validation attributes as data),
`Enums`, `Addresses`, `Contacts`, `ProfileBios`, `UserProfiles`, `Geo`
(coordinates), `Geocoding`, `Matching` (match criteria) and `Search`.

Where the code and its tests disagree, the model follows the code:

- The address tests expect a `Coordinates` property with Dublin defaults, plus
  `CreateAsync` and `UpdateCoordinatesAsync`. The `Address` class has none of
  these: its constructor sets `Latitude` and `Longitude` to 0.0.
- The tests assign an `int` to `MatchCriteria.AgeRange`. The class declares a
  `(MinAge, MaxAge)` pair, and the search reads both ends.
- The search reads `profile.Contact.Address.Coordinates`, which the `Address`
  class does not declare. The model reads the address's `Latitude` and
  `Longitude`.

The username rule is the one exception: see "## Findings".

## Model

| member | source | states |
|---|---|---|
| UserProfiles.NewUserProfile | MatchDotCom.UserProfile/UserProfile/UserProfile.cs:43-77 | Each error is raised exactly when every earlier check passed and its own check failed. The order is username, first name, middle name, last name, then date of birth (an invalid date, or the clock too early for `AddYears(-18)`), then a null contact, then a null bio. Success comes exactly when every check passes. On success the fields equal the arguments, UpdatedAt is unset, and the age at `now` is at least 18 |
| UserProfiles.FirstNameOk | MatchDotCom.UserProfile/UserProfile/UserProfile.cs:50-53 | The first-name rule: not blank, 2 to 50 characters |
| UserProfiles.MiddleNameOk | MatchDotCom.UserProfile/UserProfile/UserProfile.cs:55-58 | The middle-name rule: not blank, 1 to 50 characters |
| UserProfiles.LastNameOk | MatchDotCom.UserProfile/UserProfile/UserProfile.cs:60-63 | The last-name rule: not blank, 2 to 50 characters |
| UserProfiles.NameRulesIff | MatchDotCom.UserProfile/UserProfile/UserProfile.cs:50-63 | Each name rule on its own: first and last names need 2 to 50 characters and middle names 1 to 50, with at least one character that is not whitespace. Surrounding whitespace is kept, so " A" passes as a first name while "A" does not |
| UserProfiles.NameRulesCompared | MatchDotCom.UserProfile/UserProfile/UserProfile.cs:50-63 | First and last names follow the same rule. A valid first name is a valid middle name. The middle-name rule admits exactly one more kind of name: a single non-whitespace character |
| UserProfiles.UsernameOkAsWritten | MatchDotCom.UserProfile/UserProfile/UserProfile.cs:45-48 | The username test as the constructor writes it: non-blank, 3 to 20 characters, and a match of `^[a-zA-Z0-9_]+$` under .NET's reading of `$`. `UsernameNewlineQuirk` characterises it |
| UserProfiles.UsernameOk | MatchDotCom.UserProfile/UserProfile/UserProfile.cs:45-48 | The username test the exception message describes, with `$` at the very end. `NewUserProfile` uses it, and `UsernameOkIff` characterises it |
| UserProfiles.UsernameOkIff | MatchDotCom.UserProfile/UserProfile/UserProfile.cs:45-48 | A username is accepted exactly when it has 3 to 20 characters, all ASCII letters, digits or `_` |
| UserProfiles.UsernameNewlineQuirk | MatchDotCom.UserProfile/UserProfile/UserProfile.cs:45 | The check as written also accepts exactly the strings of 2 to 19 word characters followed by one line feed; "abc\n" is one of them |
| UserProfiles.CheckDateOfBirth | MatchDotCom.UserProfile/UserProfile/UserProfile.cs:65-68 | A birth date passes exactly when 1900-01-01 <= dob <= the date of `now` moved back 18 years. The 18th birthday is included, because the date is midnight and `now` lies later in its day. If `now` minus 18 years is unrepresentable, `AddYears` throws first |
| UserProfiles.DateOfBirthWindow | MatchDotCom.UserProfile/UserProfile/UserProfile.cs:65-68 | In age terms, a birth date passes exactly when it is not before 1900 and `Age` at `now` is at least 18 |
| UserProfiles.EighteenthBirthday | MatchDotCom.UserProfile/UserProfile/UserProfile.cs:65-68 | A person whose 18th birthday is today passes; a person born one day later does not |
| UserProfiles.Age | MatchDotCom.UserProfile/UserProfile/UserProfile.cs:21-24 | Age is the difference of the calendar years, or one less |
| UserProfiles.AgeAtLeastIff | MatchDotCom.UserProfile/UserProfile/UserProfile.cs:21-24 | Age is at least k exactly when the birth date is no later than `now` moved back k years with `AddYears` (29 February clamped) |
| Calendar.AddYears | MatchDotCom.UserProfile/UserProfile/UserProfile.cs:65 | Moves a date by whole years, keeping month and day. The one exception is 29 February moved into a common year, which becomes 28 February. The result is absent outside years 1..9999 |
| ProfileBios.NewProfileBio | MatchDotCom.UserProfile/ProfileBio.cs:70-77 | The constructor stores bio text, motto, gender, preferences and interests as given, on every input the model represents, and leaves UpdatedAt unset. A null bio text is listed under "## Left out" |
| ProfileBios.ValidIff | MatchDotCom.UserProfile/ProfileBio.cs:22-51 | The declared attributes hold exactly when: the bio is non-blank and 500 to 5000 characters; the motto is absent or at most 200; there is at least one preference; there are 1 to 10 interests |
| ProfileBios.NullFieldLikeEmpty | MatchDotCom.UserProfile/ProfileBio.cs:22-31 | A null bio text would be judged like "" and fails `[Required]`; a null motto, like "", passes |
| ProfileBios.EmptyPreferenceAcceptedButInvalid | MatchDotCom.UserProfile/ProfileBio.cs:42-77 | An empty preference list is stored by the constructor, and the resulting bio is invalid |
| ProfileBios.InterestCountBoundary | MatchDotCom.UserProfile/ProfileBio.cs:49-51 | A valid bio with exactly 10 interests becomes invalid with an eleventh |
| Contacts.NewContact | MatchDotCom.UserProfile/UserDetails/Contact.cs:52-57 | The constructor stores e-mail, phone and the very address given, on every input the model represents, and leaves UpdatedAt unset. Null arguments are listed under "## Left out" |
| Contacts.ValidIff | MatchDotCom.UserProfile/UserDetails/Contact.cs:20-30 | Valid exactly when the phone is non-blank, at most 20 characters and phone-shaped, and the e-mail is non-blank, at most 254 characters and e-mail-shaped |
| Contacts.NullFieldLikeEmpty | MatchDotCom.UserProfile/UserDetails/Contact.cs:20-30 | A null phone number or e-mail would be judged like "": both fail `[Required]` |
| Addresses.NewAddress | MatchDotCom.UserProfile/Address.cs:54-66 | The constructor stores the six text fields as given and sets latitude and longitude to 0.0. Null fields are listed under "## Left out" |
| Addresses.ValidIff | MatchDotCom.UserProfile/Address.cs:15-38 | Valid exactly when street (100), city (50), postal code (20) and country (50) are non-blank and within their bounds, the state/province is at most 50 and the eircode at most 10 (empty allowed) |
| Addresses.NullFieldLikeEmpty | MatchDotCom.UserProfile/Address.cs:15-38 | A null text field would be judged like "": the street, city, postal code and country fail, and the state or province and the eircode pass |
| Annotations.Satisfies | MatchDotCom.UserProfile/ProfileBio.cs:22-51 | What one attribute demands of one value. `NullFailsOnlyRequired` and `TextAttributes` characterise it |
| Annotations.NullFailsOnlyRequired | MatchDotCom.UserProfile/ProfileBio.cs:22-51 | A null string fails `[Required]` and passes every length and format attribute |
| Annotations.TextAttributes | MatchDotCom.UserProfile/ProfileBio.cs:22-51 | On a string, `[Required]` needs a character that is not whitespace, so " \t\n" fails it. `[MinLength(n)]` and `[MaxLength(n)]` compare the character count with n |
| Annotations.NullLikeEmpty | MatchDotCom.UserProfile/ProfileBio.cs:22-51 | Under an attribute list that declares `[Required]`, or only `[MaxLength]`, a null string is valid exactly when "" is |
| Annotations.Violations | MatchDotCom.UserProfile/ProfileBio.cs:22-51 | Every property that fails a declared attribute is reported, and every reported name belongs to such a property. The report lists names in declaration order and is drawn from the property names without repeating a position, so there is at most one entry per property. The report is empty exactly when every attribute of every property holds |
| Annotations.ViolationsDistinct | MatchDotCom.UserProfile/ProfileBio.cs:22-51 | When the property names are distinct, as a class's members are, no name is reported twice |
| Enums.GenderOrdinal | MatchDotCom.UserProfile.Tests/GenderOptionsTests.cs:33-39 | A gender's integer value is its position in the declaration order Male, Female, Other |
| Enums.GenderFromOrdinal | MatchDotCom.UserProfile.Tests/GenderOptionsTests.cs:42-48 | An integer names a gender exactly when it is 0, 1 or 2, and it then names the gender at that position |
| Enums.InterestOrdinal | MatchDotCom.UserProfile.Tests/InterestsTests.cs:52-65 | An interest's integer value is its position in the declaration order Sports, Music, ..., Outdoors |
| Enums.InterestFromOrdinal | MatchDotCom.UserProfile.Tests/InterestsTests.cs:68-81 | An integer names an interest exactly when it is in 0..9, and it then names the interest at that position |
| Enums.GenderRoundTrip | MatchDotCom.UserProfile.Tests/GenderOptionsTests.cs:33-48 | Decoding a gender's ordinal gives the gender back, and ordinals are below 3 |
| Enums.GenderOrdinalRoundTrip | MatchDotCom.UserProfile.Tests/GenderOptionsTests.cs:33-48 | Exactly 0, 1 and 2 decode to a gender, and re-encoding gives the integer back |
| Enums.InterestRoundTrip | MatchDotCom.UserProfile.Tests/InterestsTests.cs:51-81 | Decoding an interest's ordinal gives the interest back, and ordinals are below 10 |
| Enums.InterestOrdinalRoundTrip | MatchDotCom.UserProfile.Tests/InterestsTests.cs:51-81 | Exactly 0..9 decode to an interest, and re-encoding gives the integer back |
| Text.IsWhiteSpace | MatchDotCom.UserProfile/UserProfile/UserProfile.cs:45-63 | `char.IsWhiteSpace`, which `string.IsNullOrWhiteSpace` and `Trim` use. `WhiteSpaceBoundary` pins its edges |
| Text.WhiteSpaceBoundary | MatchDotCom.UserProfile/UserProfile/UserProfile.cs:45-63 | Space, tab, line feed, the no-break space, the figure space and the ideographic space are whitespace. The zero-width space, the byte-order mark, the Mongolian vowel separator, letters and digits are not |
| Text.IsBlank | MatchDotCom.UserProfile/UserProfile/UserProfile.cs:45-63 | `string.IsNullOrWhiteSpace` on a non-null string: every character is whitespace. `Trim` returns the empty string exactly on these strings |
| Text.Trim | MatchDotCom.UserProfile/Geocoder.cs:27 | The result is a slice of the input with only whitespace cut away on either side, and neither end of it is whitespace. It is empty exactly when the input is blank |
| Text.ReplaceSpacePairs | MatchDotCom.UserProfile/Geocoder.cs:27 | The result is a subsequence of the text. It is strictly shorter when the text has two adjacent spaces, and equal to it otherwise. It keeps the first and last characters |
| Text.ReplaceSpacePairsKeepsText | MatchDotCom.UserProfile/Geocoder.cs:27 | The non-space characters survive in order. Together with the subsequence clause of `ReplaceSpacePairs`, this means the pass removes spaces and nothing else |
| Text.ReplaceSpacePairsConcat | MatchDotCom.UserProfile/Geocoder.cs:27 | The pass `SpacePairPass`, which `ReplaceSpacePairs` returns, treats the text on either side of a non-space character independently |
| Text.ReplaceSpaceRun | MatchDotCom.UserProfile/Geocoder.cs:27 | Under `SpacePairPass`, a run of k spaces followed by a non-space or the end becomes (k + 1) / 2 spaces, so one pass halves a run rather than collapsing it |
| Text.ReplaceSpacePairsExamples | MatchDotCom.UserProfile/Geocoder.cs:27 | "a  b" becomes "a b", and "a   b" becomes "a  b" |
| Geocoding.CleanAddress | MatchDotCom.UserProfile/Geocoder.cs:27 | The query text is never longer than the address. It neither starts nor ends with whitespace, and it is empty exactly when the address is blank. An address with two adjacent spaces anywhere comes out strictly shorter; any other address comes out just trimmed |
| Text.Contains | MatchDotCom.UserProfile/Geocoder.cs:85 | The substring test holds exactly when the pattern occurs at some index |
| Text.ToLower | MatchDotCom.UserProfile/Geocoder.cs:85 | Lower-casing keeps the length and maps each character on its own, ASCII letters to lower case |
| Geocoding.MentionsDublin | MatchDotCom.UserProfile/Geocoder.cs:85 | The Dublin test holds exactly when "dublin" or "d02" occurs at some index of the lower-cased address |
| Geocoding.MentionsDublinIgnoresCase | MatchDotCom.UserProfile/Geocoder.cs:85 | The test gives the same answer for an address and for its lower-cased form |
| Geocoding.Fallback | MatchDotCom.UserProfile/Geocoder.cs:81-100 | For an address whose lower-cased text contains "dublin" or "d02", each axis is within [-0.05, 0.05) of (53.3498, -6.2603). Any other address gets exactly that centre. The result is always on the globe |
| Geocoding.FallbackCoversSquare | MatchDotCom.UserProfile/Geocoder.cs:85-92 | Every point of that jitter square is produced by some pair of draws in [0, 1) |
| Geocoding.GetCoordinates | MatchDotCom.UserProfile/Geocoder.cs:22-79 | The service is asked about the cleaned address. A usable first result is returned as is; every other path returns the fallback for the raw address. No path returns null |
| Geocoding.FirstResult | MatchDotCom.UserProfile/Geocoder.cs:38-78 | A result comes only from a success status with a body that is neither blank nor "[]". The body must decode to an array whose first element is non-null and whose lat and lon parse to the returned numbers |
| Geocoding.FallbackCases | MatchDotCom.UserProfile/Geocoder.cs:38-78 | These all yield no result, and so the fallback: an exception, a non-success status, a blank or "[]" body, a null or empty array, a null first element, or an unparsable lat or lon |
| Geocoding.FirstResultWins | MatchDotCom.UserProfile/Geocoder.cs:61-69 | When the first result's lat and lon both parse, the answer is exactly those numbers, whatever later results hold |
| Geocoding.GetCoordinatesAsWritten | MatchDotCom.UserProfile/Geocoder.cs:22-100 | For a non-null address, the nullable reading returns what `GetCoordinates` returns |
| Geocoding.NullAddressThrows | MatchDotCom.UserProfile/Geocoder.cs:74-85 | A null address lets an exception escape |
| Geocoding.GetCoordinatesNullSafe | MatchDotCom.UserProfile/Geocoder.cs:22-100 | The corrected reading never throws and always returns coordinates. For null it returns the centre; otherwise it agrees with the code |
| Search.FindProfilesByCriteria | MatchDotCom.MatchingEngine/services/SearchService.cs:12-19 | The result is exactly the profiles with MinAge <= Age <= MaxAge and distance <= radius, in input order. It is a subsequence of the input and no longer than it |
| Search.Filter | MatchDotCom.MatchingEngine/services/SearchService.cs:14-18 | The reference result: no longer than the input, and every profile in it matches |
| Search.Matches | MatchDotCom.MatchingEngine/services/SearchService.cs:15-17 | The filter condition: MinAge <= Age <= MaxAge, and the distance from the profile's address to the location is at most the radius |
| Search.FilterMembers | MatchDotCom.MatchingEngine/services/SearchService.cs:14-18 | A profile is in the result exactly when it is in the input and matches |
| Search.FilterIsSubsequence | MatchDotCom.MatchingEngine/services/SearchService.cs:14-18 | The result is an order-preserving subsequence of the input, no longer than it |
| Search.FilterIdempotent | MatchDotCom.MatchingEngine/services/SearchService.cs:14-18 | Searching the result again with the same arguments returns it unchanged |
| Search.FilterIgnoresInterestsAndDistance | MatchDotCom.MatchingEngine/services/SearchService.cs:12-18 | Criteria with the same age range give the same result, whatever their interests and distance fields hold |
| Search.FilterInvertedRangeEmpty | MatchDotCom.MatchingEngine/services/SearchService.cs:15-16 | If MinAge > MaxAge the result is empty |
| Search.ThreeProfileScenario | MatchDotCom.MatchingEngine/services/SearchService.cs:14-18 | Ages 24/30/45 at 2/8/50 km, searched with ages 25..40 within 10 km, yield only the 30-year-old |
| Search.DegreesToRadians | MatchDotCom.MatchingEngine/services/SearchService.cs:34-37 | 180 degrees are `Pi` radians, and only 0 degrees maps to 0 |
| Search.Distance | MatchDotCom.MatchingEngine/services/SearchService.cs:21-32 | The Haversine distance with radius 6371 km. It is 0 from a point to itself, given the facts in `Search.Lawful` |
| Search.HalfChordSquareSymmetric | MatchDotCom.MatchingEngine/services/SearchService.cs:27-29 | The Haversine term `a` is the same in both directions, given an odd sine |
| Search.DistanceSymmetric | MatchDotCom.MatchingEngine/services/SearchService.cs:21-37 | distance(a, b) == distance(b, a), given an odd sine |
| Search.DistanceToSelf | MatchDotCom.MatchingEngine/services/SearchService.cs:21-37 | distance(a, a) == 0, given sin 0 = 0, sqrt 0 = 0, sqrt 1 = 1 and atan2(0, 1) = 0 |

## Left out

- Search.DistanceSymmetric: holds for real arithmetic and trigonometric functions satisfying `Search.Lawful`. IEEE double rounding is not modelled, and neither is the concrete sine, cosine, arc tangent or square root.
- Search.DistanceToSelf: same restriction as above.
- Geocoding.Fallback: states the jitter's range, and `FallbackCoversSquare` states that the whole square is reachable. It does not state the exact affine map from each draw, nor the uniform distribution of `Random.NextDouble`.
- Dates have day granularity, and the time of day in `DateTime` is dropped. Every read of `DateTime.UtcNow` is the single parameter `now`. That covers the three reads in `Age` (UserProfile.cs:22-24), the `CreatedAt` initialiser (line 29) and the date-of-birth check (line 65). `Guid.NewGuid()` is a parameter too.
- UserProfiles.CheckDateOfBirth: reads the birth date as midnight and `now` as a later instant of its day. At exactly 00:00:00.0000000 UTC, UserProfile.cs:65 also rejects the 18th birthday, and the model does not cover that instant. A birth date carrying a time of day is not modelled either. `Age` needs no such assumption: it compares the birth instant with an anniversary that has the time of `now`, and at midnight birth dates that agrees with the day-level comparison.
- UserProfiles.NewUserProfile: uses the corrected username rule, so it rejects "abc\n", which UserProfile.cs:45 accepts (see "## Findings").
- Strings are sequences of Unicode scalar values. .NET counts UTF-16 code units, so a character outside the Basic Multilingual Plane counts once here and twice in .NET.
- `ToLower` is modelled for ASCII letters only. Culture-specific mappings are not modelled (the Turkish dotless i, the Kelvin sign).
- Null strings for the username and the names are not modelled. `string.IsNullOrWhiteSpace` treats null as blank, so null gets the same error as an empty string.
- Null lists in `ProfileBio` are not modelled.
- ProfileBios.NewProfileBio: a null bio text is not modelled, although ProfileBio.cs:70-77 stores it. Property by property, a null string is valid exactly when "" is. `[Required]` rejects both. The length and format attributes accept null. In these classes they can reject "" only on a property that also declares `[Required]` (`Annotations.NullLikeEmpty`, `ProfileBios.NullFieldLikeEmpty`).
- Contacts.NewContact: a null e-mail, phone number or address is not modelled, although Contact.cs:52-57 stores each. A null e-mail or phone number is judged like "" (`Contacts.NullFieldLikeEmpty`). The `Address` property carries no attribute (Contact.cs:36), so a null address is stored and never checked.
- Addresses.NewAddress: null text fields are not modelled, although Address.cs:54-66 stores them. Each is judged like "" (`Addresses.NullFieldLikeEmpty`).
- `Replace("  ", " ")` is one pass. A run of three or more spaces keeps a double space. This is modelled as written.
- Geocoder I/O is not modelled: URL construction, `Uri.EscapeDataString`, the `User-Agent` header, the one-second `Task.Delay` rate limit and `Console` logging. Any exception from them or from the HTTP call is the `Faulted` exchange.
- The rules of `[Phone]`, `[EmailAddress]`, `JsonSerializer` and `double.TryParse` are library code. They are function parameters.
- Geocoding.FirstResult: the parse parameter returns only finite numbers. `double.TryParse` also accepts "NaN", "Infinity" and, on .NET Core 3.0 and later, an overflowing literal such as "1e999". Geocoder.cs:61-69 then returns a non-finite coordinate as a successful geocode. A `real` has no such values, so that path is not modelled.
- The classes never validate themselves. The attributes are checked only by ASP.NET Core model binding: the `[ApiController]` controllers validate a bound `[FromBody]` object and the objects nested in it. That binding is not modelled. Validity here is what each class's own attributes declare, with one report entry per failing property, in declaration order, and no messages. `Contacts.IsValid` covers only the contact's own attributes; under model binding the nested address's attributes would count as well.
- C# casts out-of-range integers to unnamed enum values. The model decodes such integers to `None`.
- The `ToJson` methods and the JSON round trip are not modelled: they delegate to System.Text.Json.
- Not modelled: HTTP controllers, the profile service, the repository and the database context. These are routing, delegation and EF Core persistence. The uniqueness of username and id is enforced by database indexes.
- The older duplicate class files are not modelled: `UserProfile.cs` at the project root, `Adress.cs`, `UserDetails.cs` and `Coordinates.cs`. They are superseded by the files modelled here.
- The search service never modifies its stored profile list. Here this holds by construction: the list is an immutable sequence value, so no member states it.

## Findings

| source | as written | input that shows it | evidently intended | confidence | as-written member | corrected member |
|---|---|---|---|---|---|---|
| MatchDotCom.UserProfile/UserProfile/UserProfile.cs:45 | In `^[a-zA-Z0-9_]+$`, .NET's `$` also matches before a final line feed, so a username may end in "\n" | "abc\n" | Only letters, digits and underscores, as the exception message says | medium, not executed | UserProfiles.UsernameNewlineQuirk | UserProfiles.UsernameOkIff |
| MatchDotCom.UserProfile/Geocoder.cs:85 | A null address makes `Trim` throw inside the `try`. The handler calls the fallback, whose `ToLower` throws outside any handler | null address | Never throw, as MatchDotCom.UserProfile.Tests/GeocoderTests.cs:44-55 expects | high, not executed | Geocoding.NullAddressThrows | Geocoding.GetCoordinatesNullSafe |

`UserProfiles.NewUserProfile` uses the corrected username rule, so the model drops the trailing line-feed quirk. The `Geocoding` members take a non-null address, except the two nullable readings in the second row.
