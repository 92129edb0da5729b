/** The search service: a single order-preserving pass over the stored profiles
    keeping those whose age lies in the requested range and whose address lies
    within the radius of a location, by the Haversine great-circle distance. */
module Search {
  import opened Base
  import opened Calendar
  import opened Geo
  import opened Matching
  import opened UserProfiles

  /** The mean Earth radius in kilometres. */
  const EarthRadiusKm: real := 6371.0

  /** `Math.PI` as a double. */
  const Pi: real := 3.141592653589793

  /** The library's sine, cosine, two-argument arc tangent and square root;
      the model does not define them. */
  datatype Trig = Trig(sin: real -> real, cos: real -> real, atan2: (real, real) -> real, sqrt: real -> real)

  /** The few facts about those functions the distance properties rely on. */
  ghost predicate Lawful(t: Trig) {
    (forall x :: t.sin(-x) == -t.sin(x))
    && t.sin(0.0) == 0.0 && t.atan2(0.0, 1.0) == 0.0 && t.sqrt(0.0) == 0.0 && t.sqrt(1.0) == 1.0
  }

  /** Degrees to radians: 180 degrees are `Pi` radians, and the map is linear. */
  function DegreesToRadians(degrees: real): (r: real)
    ensures r * 180.0 == degrees * Pi
    ensures degrees == 0.0 <==> r == 0.0
  {
    degrees * (Pi / 180.0)
  }

  /** The square of the half chord between the two points, `a` in the Haversine formula. */
  function HalfChordSquare(t: Trig, a: Coordinates, b: Coordinates): real {
    var sLat := t.sin(DegreesToRadians(b.latitude - a.latitude) / 2.0);
    var sLon := t.sin(DegreesToRadians(b.longitude - a.longitude) / 2.0);
    sLat * sLat + t.cos(DegreesToRadians(a.latitude)) * t.cos(DegreesToRadians(b.latitude)) * (sLon * sLon)
  }

  /** `GetDistance`: the Haversine distance in kilometres from `a` to `b`. */
  function Distance(t: Trig, a: Coordinates, b: Coordinates): (d: real)
    ensures Lawful(t) && a == b ==> d == 0.0
  {
    var h := HalfChordSquare(t, a, b);
    assert Lawful(t) && a == b ==> h == 0.0 by {
      if a == b {
        assert DegreesToRadians(b.latitude - a.latitude) / 2.0 == 0.0;
        assert DegreesToRadians(b.longitude - a.longitude) / 2.0 == 0.0;
      }
    }
    EarthRadiusKm * (2.0 * t.atan2(t.sqrt(h), t.sqrt(1.0 - h)))
  }

  /** An odd function has the same square at `x` and `-x`. */
  lemma OddSquare(t: Trig, x: real, y: real)
    requires Lawful(t) && y == -x
    ensures t.sin(y) * t.sin(y) == t.sin(x) * t.sin(x)
  {
    assert t.sin(y) == -t.sin(x);
  }

  lemma HalfChordSquareSymmetric(t: Trig, a: Coordinates, b: Coordinates)
    requires Lawful(t)
    ensures HalfChordSquare(t, a, b) == HalfChordSquare(t, b, a)
  {
    OddSquare(t, DegreesToRadians(b.latitude - a.latitude) / 2.0, DegreesToRadians(a.latitude - b.latitude) / 2.0);
    OddSquare(t, DegreesToRadians(b.longitude - a.longitude) / 2.0, DegreesToRadians(a.longitude - b.longitude) / 2.0);
  }

  /** The distance does not depend on the direction of travel. */
  lemma DistanceSymmetric(t: Trig, a: Coordinates, b: Coordinates)
    requires Lawful(t)
    ensures Distance(t, a, b) == Distance(t, b, a)
  {
    HalfChordSquareSymmetric(t, a, b);
  }

  /** A point is at distance zero from itself. */
  lemma DistanceToSelf(t: Trig, a: Coordinates)
    requires Lawful(t)
    ensures Distance(t, a, a) == 0.0
  {
    assert DegreesToRadians(a.latitude - a.latitude) / 2.0 == 0.0;
    assert DegreesToRadians(a.longitude - a.longitude) / 2.0 == 0.0;
    assert HalfChordSquare(t, a, a) == 0.0;
  }

  /** The address coordinates a profile is searched by. */
  function Location(p: UserProfile): Coordinates {
    Coordinates(p.contact.address.latitude, p.contact.address.longitude)
  }

  /** The condition of the filter: the age at `now` lies in the range, both ends
      included, and the profile is at most `radius` away from `location`. */
  predicate Matches(p: UserProfile, criteria: MatchCriteria, location: Coordinates, radius: real,
                    now: DateTime, t: Trig) {
    var age := Age(p.dateOfBirth, now);
    criteria.ageRange.minAge <= age && age <= criteria.ageRange.maxAge
    && Distance(t, Location(p), location) <= radius
  }

  /** The reference definition of the result: the matching profiles, in order. */
  function Filter(ps: seq<UserProfile>, criteria: MatchCriteria, location: Coordinates, radius: real,
                  now: DateTime, t: Trig): (r: seq<UserProfile>)
    ensures |r| <= |ps|
    ensures forall i :: 0 <= i < |r| ==> Matches(r[i], criteria, location, radius, now, t)
  {
    if ps == [] then []
    else (if Matches(ps[0], criteria, location, radius, now, t) then [ps[0]] else [])
         + Filter(ps[1..], criteria, location, radius, now, t)
  }

  lemma {:induction false} FilterAppend(ps: seq<UserProfile>, p: UserProfile, criteria: MatchCriteria,
                                        location: Coordinates, radius: real, now: DateTime, t: Trig)
    ensures Filter(ps + [p], criteria, location, radius, now, t)
         == Filter(ps, criteria, location, radius, now, t)
            + (if Matches(p, criteria, location, radius, now, t) then [p] else [])
    decreases |ps|
  {
    var tail := if Matches(p, criteria, location, radius, now, t) then [p] else [];
    if ps == [] {
      assert [p][1..] == [];
      assert ps + [p] == [p];
    } else {
      var head := if Matches(ps[0], criteria, location, radius, now, t) then [ps[0]] else [];
      calc {
        Filter(ps + [p], criteria, location, radius, now, t);
        == { assert (ps + [p])[0] == ps[0]; }
        head + Filter((ps + [p])[1..], criteria, location, radius, now, t);
        == { DropAppend(ps, [p], 1); }
        head + Filter(ps[1..] + [p], criteria, location, radius, now, t);
        == { FilterAppend(ps[1..], p, criteria, location, radius, now, t); }
        head + (Filter(ps[1..], criteria, location, radius, now, t) + tail);
        == { AppendAssoc(head, Filter(ps[1..], criteria, location, radius, now, t), tail); }
        (head + Filter(ps[1..], criteria, location, radius, now, t)) + tail;
        ==
        Filter(ps, criteria, location, radius, now, t) + tail;
      }
    }
  }

  /** `FindProfilesByCriteria`: one pass over the stored profiles. */
  method FindProfilesByCriteria(profiles: seq<UserProfile>, criteria: MatchCriteria, location: Coordinates,
                                radius: real, now: DateTime, t: Trig) returns (found: seq<UserProfile>)
    ensures found == Filter(profiles, criteria, location, radius, now, t)
    ensures forall p :: p in found <==> p in profiles && Matches(p, criteria, location, radius, now, t)
    ensures IsSubsequence(found, profiles) && |found| <= |profiles|
  {
    found := [];
    var i := 0;
    while i < |profiles|
      invariant 0 <= i <= |profiles|
      invariant found == Filter(profiles[..i], criteria, location, radius, now, t)
    {
      var p := profiles[i];
      FilterAppend(profiles[..i], p, criteria, location, radius, now, t);
      assert profiles[..i + 1] == profiles[..i] + [p];
      var age := Age(p.dateOfBirth, now);
      if age >= criteria.ageRange.minAge && age <= criteria.ageRange.maxAge
         && Distance(t, Location(p), location) <= radius {
        found := found + [p];
      }
      i := i + 1;
    }
    assert profiles[..i] == profiles;
    FilterMembers(profiles, criteria, location, radius, now, t);
    FilterIsSubsequence(profiles, criteria, location, radius, now, t);
  }

  /** Exactly the matching profiles are kept: an element of the result matches
      and comes from the input, and every matching input profile is in the result. */
  lemma {:induction false} FilterMembers(ps: seq<UserProfile>, criteria: MatchCriteria, location: Coordinates,
                                         radius: real, now: DateTime, t: Trig)
    ensures forall p :: p in Filter(ps, criteria, location, radius, now, t) <==>
      p in ps && Matches(p, criteria, location, radius, now, t)
    decreases |ps|
  {
    if ps != [] {
      FilterMembers(ps[1..], criteria, location, radius, now, t);
      assert forall p :: p in ps <==> p == ps[0] || p in ps[1..] by {
        assert ps == [ps[0]] + ps[1..];
      }
    }
  }

  /** The result is a subsequence of the input: nothing reordered, nothing duplicated. */
  lemma {:induction false} FilterIsSubsequence(ps: seq<UserProfile>, criteria: MatchCriteria, location: Coordinates,
                                               radius: real, now: DateTime, t: Trig)
    ensures IsSubsequence(Filter(ps, criteria, location, radius, now, t), ps)
    ensures |Filter(ps, criteria, location, radius, now, t)| <= |ps|
    decreases |ps|
  {
    if ps != [] {
      FilterIsSubsequence(ps[1..], criteria, location, radius, now, t);
      var rest := Filter(ps[1..], criteria, location, radius, now, t);
      var r := Filter(ps, criteria, location, radius, now, t);
      if Matches(ps[0], criteria, location, radius, now, t) {
        assert r == [ps[0]] + rest;
        assert r[0] == ps[0] && r[1..] == rest;
      } else {
        assert r == rest;
      }
    }
  }

  /** Searching the result again with the same arguments changes nothing. */
  lemma {:induction false} FilterIdempotent(ps: seq<UserProfile>, criteria: MatchCriteria, location: Coordinates,
                                            radius: real, now: DateTime, t: Trig)
    ensures Filter(Filter(ps, criteria, location, radius, now, t), criteria, location, radius, now, t)
         == Filter(ps, criteria, location, radius, now, t)
    decreases |ps|
  {
    if ps != [] {
      FilterIdempotent(ps[1..], criteria, location, radius, now, t);
      var rest := Filter(ps[1..], criteria, location, radius, now, t);
      var r := Filter(ps, criteria, location, radius, now, t);
      if Matches(ps[0], criteria, location, radius, now, t) {
        assert r == [ps[0]] + rest;
        assert r[0] == ps[0] && r[1..] == rest;
        assert Filter(r, criteria, location, radius, now, t)
            == [ps[0]] + Filter(rest, criteria, location, radius, now, t);
      } else {
        assert r == rest;
      }
    }
  }

  /** Only the age range is read from the criteria: the common interests and
      the criteria's own distance have no effect; the radius argument bounds
      the distance instead. */
  lemma {:induction false} FilterIgnoresInterestsAndDistance(ps: seq<UserProfile>, c1: MatchCriteria, c2: MatchCriteria,
                                                             location: Coordinates, radius: real, now: DateTime, t: Trig)
    requires c1.ageRange == c2.ageRange
    ensures Filter(ps, c1, location, radius, now, t) == Filter(ps, c2, location, radius, now, t)
    decreases |ps|
  {
    if ps != [] {
      FilterIgnoresInterestsAndDistance(ps[1..], c1, c2, location, radius, now, t);
    }
  }

  /** An inverted age range matches nobody. */
  lemma {:induction false} FilterInvertedRangeEmpty(ps: seq<UserProfile>, criteria: MatchCriteria, location: Coordinates,
                                                    radius: real, now: DateTime, t: Trig)
    requires criteria.ageRange.minAge > criteria.ageRange.maxAge
    ensures Filter(ps, criteria, location, radius, now, t) == []
    decreases |ps|
  {
    if ps != [] {
      FilterInvertedRangeEmpty(ps[1..], criteria, location, radius, now, t);
    }
  }

  /** Three profiles aged 24, 30 and 45, at 2, 8 and 50 km from the origin:
      ages 25 to 40 within 10 km select the second alone. */
  lemma ThreeProfileScenario(p1: UserProfile, p2: UserProfile, p3: UserProfile, criteria: MatchCriteria,
                             origin: Coordinates, now: DateTime, t: Trig)
    requires Age(p1.dateOfBirth, now) == 24 && Age(p2.dateOfBirth, now) == 30 && Age(p3.dateOfBirth, now) == 45
    requires Distance(t, Location(p1), origin) == 2.0 && Distance(t, Location(p2), origin) == 8.0
    requires Distance(t, Location(p3), origin) == 50.0
    requires criteria.ageRange == AgeRange(25, 40)
    ensures Filter([p1, p2, p3], criteria, origin, 10.0, now, t) == [p2]
  {
    assert !Matches(p1, criteria, origin, 10.0, now, t);
    assert Matches(p2, criteria, origin, 10.0, now, t);
    assert !Matches(p3, criteria, origin, 10.0, now, t);
    assert [p3][1..] == [];
    assert Filter([p3], criteria, origin, 10.0, now, t) == [];
    assert [p2, p3][1..] == [p3];
    assert Filter([p2, p3], criteria, origin, 10.0, now, t) == [p2];
    assert [p1, p2, p3][1..] == [p2, p3];
  }
}
