/** The two enumerations of the profile library, with the integer ordinals
    they are stored and serialised as. */
module Enums {
  import opened Base

  datatype Gender = Male | Female | Other

  datatype Interest = Sports | Music | Travel | Food | Arts | Technology | Fitness | Reading | Gaming | Outdoors

  /** The genders in declaration order, which C# numbers from 0. */
  const Genders: seq<Gender> := [Male, Female, Other]

  /** The interests in declaration order, which C# numbers from 0. */
  const AllInterests: seq<Interest> :=
    [Sports, Music, Travel, Food, Arts, Technology, Fitness, Reading, Gaming, Outdoors]

  /** `(int)gender` */
  function GenderOrdinal(g: Gender): (n: nat)
    ensures n < |Genders| && Genders[n] == g
  {
    match g
    case Male => 0
    case Female => 1
    case Other => 2
  }

  /** `(GenderOptions)n`, restricted to the named values. */
  function GenderFromOrdinal(n: int): (r: Option<Gender>)
    ensures r.Some? <==> 0 <= n < |Genders|
    ensures r.Some? ==> r.value == Genders[n]
  {
    if n == 0 then Some(Male)
    else if n == 1 then Some(Female)
    else if n == 2 then Some(Other)
    else None
  }

  /** Encoding then decoding a gender gives it back. */
  lemma GenderRoundTrip(g: Gender)
    ensures GenderFromOrdinal(GenderOrdinal(g)) == Some(g)
    ensures GenderOrdinal(g) < 3
  {
  }

  /** Exactly 0, 1 and 2 name a gender, and decoding then encoding gives the ordinal back. */
  lemma GenderOrdinalRoundTrip(n: int)
    ensures GenderFromOrdinal(n).Some? <==> 0 <= n < 3
    ensures GenderFromOrdinal(n).Some? ==> GenderOrdinal(GenderFromOrdinal(n).value) == n
  {
  }

  /** `(int)interest` */
  function InterestOrdinal(i: Interest): (n: nat)
    ensures n < |AllInterests| && AllInterests[n] == i
  {
    match i
    case Sports => 0
    case Music => 1
    case Travel => 2
    case Food => 3
    case Arts => 4
    case Technology => 5
    case Fitness => 6
    case Reading => 7
    case Gaming => 8
    case Outdoors => 9
  }

  /** `(Interests)n`, restricted to the named values. */
  function InterestFromOrdinal(n: int): (r: Option<Interest>)
    ensures r.Some? <==> 0 <= n < |AllInterests|
    ensures r.Some? ==> r.value == AllInterests[n]
  {
    if n == 0 then Some(Sports)
    else if n == 1 then Some(Music)
    else if n == 2 then Some(Travel)
    else if n == 3 then Some(Food)
    else if n == 4 then Some(Arts)
    else if n == 5 then Some(Technology)
    else if n == 6 then Some(Fitness)
    else if n == 7 then Some(Reading)
    else if n == 8 then Some(Gaming)
    else if n == 9 then Some(Outdoors)
    else None
  }

  /** Encoding then decoding an interest gives it back. */
  lemma InterestRoundTrip(i: Interest)
    ensures InterestFromOrdinal(InterestOrdinal(i)) == Some(i)
    ensures InterestOrdinal(i) < 10
  {
  }

  /** Exactly 0..9 name an interest, and decoding then encoding gives the ordinal back. */
  lemma InterestOrdinalRoundTrip(n: int)
    ensures InterestFromOrdinal(n).Some? <==> 0 <= n < 10
    ensures InterestFromOrdinal(n).Some? ==> InterestOrdinal(InterestFromOrdinal(n).value) == n
  {
  }
}
