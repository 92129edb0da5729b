/** What a searcher asks for. Nothing is validated: negative ages or an
    inverted range are accepted as they are. */
module Matching {
  import opened Enums

  datatype AgeRange = AgeRange(minAge: int, maxAge: int)

  datatype MatchCriteria = MatchCriteria(ageRange: AgeRange, interestsCommon: seq<Interest>, distance: real)
}
