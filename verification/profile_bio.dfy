/** The self-description part of a profile and the validity its attributes declare. */
module ProfileBios {
  import opened Base
  import opened Calendar
  import opened Enums
  import Text
  import A = Annotations

  datatype ProfileBio = ProfileBio(
    id: Guid,
    bioText: string,
    lifeMotto: Option<string>,
    gender: Gender,
    genderPreference: seq<Gender>,
    interests: seq<Interest>,
    createdAt: DateTime,
    updatedAt: Option<DateTime>)

  /** The constructor: stores the five arguments as given and checks nothing;
      `id` and `createdAt` are what the property initialisers draw. */
  function NewProfileBio(id: Guid, bioText: string, lifeMotto: Option<string>, gender: Gender,
                         genderPreference: seq<Gender>, interests: seq<Interest>, createdAt: DateTime): (b: ProfileBio)
    ensures b.bioText == bioText && b.lifeMotto == lifeMotto && b.gender == gender
    ensures b.genderPreference == genderPreference && b.interests == interests
    ensures b.id == id && b.createdAt == createdAt
    ensures b.updatedAt == None
  {
    ProfileBio(id, bioText, lifeMotto, gender, genderPreference, interests, createdAt, None)
  }

  /** The attributes declared on the class, property by property. */
  function Properties(b: ProfileBio): seq<A.Property> {
    [ A.Property("BioText", A.TextValue(Some(b.bioText)), [A.Required, A.MinLength(500), A.MaxLength(5000)]),
      A.Property("LifeMotto", A.TextValue(b.lifeMotto), [A.MaxLength(200)]),
      A.Property("Gender", A.ScalarValue, [A.Required]),
      A.Property("GenderPreference", A.ListValue(Some(|b.genderPreference|)), [A.Required, A.MinLength(1)]),
      A.Property("Interests", A.ListValue(Some(|b.interests|)), [A.Required, A.MinLength(1), A.MaxLength(10)]) ]
  }

  predicate IsValid(b: ProfileBio) {
    A.AllValid(Properties(b))
  }

  /** The declared validity, spelled out: a non-blank bio of 500 to 5000
      characters, no motto or one of at most 200 characters, at least one
      gender preference, and 1 to 10 interests. */
  lemma ValidIff(b: ProfileBio)
    ensures IsValid(b) <==>
      !Text.IsBlank(b.bioText) && 500 <= |b.bioText| <= 5000
      && (b.lifeMotto == None || |b.lifeMotto.value| <= 200)
      && |b.genderPreference| >= 1
      && 1 <= |b.interests| <= 10
  {
    var ps := Properties(b);
    assert A.PropertyValid(ps[0]) <==> !Text.IsBlank(b.bioText) && 500 <= |b.bioText| <= 5000 by {
      assert ps[0].attributes[0] == A.Required;
      assert ps[0].attributes[1] == A.MinLength(500);
      assert ps[0].attributes[2] == A.MaxLength(5000);
    }
    assert A.PropertyValid(ps[1]) <==> (b.lifeMotto == None || |b.lifeMotto.value| <= 200) by {
      assert ps[1].attributes[0] == A.MaxLength(200);
    }
    assert A.PropertyValid(ps[2]) by {
      assert ps[2].attributes[0] == A.Required;
    }
    assert A.PropertyValid(ps[3]) <==> |b.genderPreference| >= 1 by {
      assert ps[3].attributes[0] == A.Required;
      assert ps[3].attributes[1] == A.MinLength(1);
    }
    assert A.PropertyValid(ps[4]) <==> 1 <= |b.interests| <= 10 by {
      assert ps[4].attributes[0] == A.Required;
      assert ps[4].attributes[1] == A.MinLength(1);
      assert ps[4].attributes[2] == A.MaxLength(10);
    }
  }

  /** The constructor accepts what the attributes reject: an empty gender
      preference list yields a bio, and that bio is not valid. */
  lemma EmptyPreferenceAcceptedButInvalid(id: Guid, bioText: string, lifeMotto: Option<string>, gender: Gender,
                                          interests: seq<Interest>, createdAt: DateTime)
    ensures NewProfileBio(id, bioText, lifeMotto, gender, [], interests, createdAt).genderPreference == []
    ensures !IsValid(NewProfileBio(id, bioText, lifeMotto, gender, [], interests, createdAt))
  {
    ValidIff(NewProfileBio(id, bioText, lifeMotto, gender, [], interests, createdAt));
  }

  /** Ten interests are the most a valid bio may list; one more makes it invalid. */
  lemma InterestCountBoundary(b: ProfileBio, extra: Interest)
    requires IsValid(b) && |b.interests| == 10
    ensures !IsValid(b.(interests := b.interests + [extra]))
  {
    ValidIff(b);
    ValidIff(b.(interests := b.interests + [extra]));
  }

  /** A null bio text, which the constructor stores, is judged like "" (it fails
      `[Required]`); a null motto, like "", passes. */
  lemma NullFieldLikeEmpty(b: ProfileBio, i: nat)
    requires i < 2
    ensures A.PropertyValid(Properties(b)[i].(value := A.TextValue(None)))
        <==> A.PropertyValid(Properties(b)[i].(value := A.TextValue(Some(""))))
  {
    var p := Properties(b)[i];
    if p.attributes[0].Required? {
      assert 0 <= 0 < |p.attributes| && p.attributes[0].Required?;
    }
    A.NullLikeEmpty(p.name, p.attributes);
  }
}
