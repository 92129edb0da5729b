/** The postal address of a contact and the validity its attributes declare. */
module Addresses {
  import opened Base
  import Text
  import A = Annotations

  datatype Address = Address(
    id: Guid,
    street: string,
    city: string,
    stateOrProvince: string,
    postalCode: string,
    country: string,
    eircode: string,
    latitude: real,
    longitude: real)

  /** The constructor: copies every field and leaves 0.0 placeholders for the
      coordinates; it checks nothing. The identifier is the fresh GUID the
      property initialiser would draw. */
  function NewAddress(id: Guid, street: string, city: string, stateOrProvince: string,
                      postalCode: string, country: string, eircode: string): (a: Address)
    ensures a.id == id
    ensures a.street == street && a.city == city && a.stateOrProvince == stateOrProvince
    ensures a.postalCode == postalCode && a.country == country && a.eircode == eircode
    ensures a.latitude == 0.0 && a.longitude == 0.0
  {
    Address(id, street, city, stateOrProvince, postalCode, country, eircode, 0.0, 0.0)
  }

  /** The attributes declared on the class, property by property. */
  function Properties(a: Address): seq<A.Property> {
    [ A.Property("Street", A.TextValue(Some(a.street)), [A.Required, A.MaxLength(100)]),
      A.Property("City", A.TextValue(Some(a.city)), [A.Required, A.MaxLength(50)]),
      A.Property("StateOrProvince", A.TextValue(Some(a.stateOrProvince)), [A.MaxLength(50)]),
      A.Property("PostalCode", A.TextValue(Some(a.postalCode)), [A.Required, A.MaxLength(20)]),
      A.Property("Country", A.TextValue(Some(a.country)), [A.Required, A.MaxLength(50)]),
      A.Property("Eircode", A.TextValue(Some(a.eircode)), [A.MaxLength(10)]) ]
  }

  predicate IsValid(a: Address) {
    A.AllValid(Properties(a))
  }

  /** The declared validity, spelled out: street, city, postal code and country
      are non-blank and bounded by 100, 50, 20 and 50 characters; the state or
      province is only bounded by 50 and the eircode by 10, so either may be empty. */
  lemma ValidIff(a: Address)
    ensures IsValid(a) <==>
      !Text.IsBlank(a.street) && |a.street| <= 100
      && !Text.IsBlank(a.city) && |a.city| <= 50
      && |a.stateOrProvince| <= 50
      && !Text.IsBlank(a.postalCode) && |a.postalCode| <= 20
      && !Text.IsBlank(a.country) && |a.country| <= 50
      && |a.eircode| <= 10
  {
    var ps := Properties(a);
    assert A.PropertyValid(ps[0]) <==> !Text.IsBlank(a.street) && |a.street| <= 100 by {
      assert ps[0].attributes[0] == A.Required;
    }
    assert A.PropertyValid(ps[1]) <==> !Text.IsBlank(a.city) && |a.city| <= 50 by {
      assert ps[1].attributes[0] == A.Required;
    }
    assert A.PropertyValid(ps[2]) <==> |a.stateOrProvince| <= 50 by {
      assert ps[2].attributes[0] == A.MaxLength(50);
    }
    assert A.PropertyValid(ps[3]) <==> !Text.IsBlank(a.postalCode) && |a.postalCode| <= 20 by {
      assert ps[3].attributes[0] == A.Required;
    }
    assert A.PropertyValid(ps[4]) <==> !Text.IsBlank(a.country) && |a.country| <= 50 by {
      assert ps[4].attributes[0] == A.Required;
    }
    assert A.PropertyValid(ps[5]) <==> |a.eircode| <= 10 by {
      assert ps[5].attributes[0] == A.MaxLength(10);
    }
  }

  /** A text field the constructor stores as null is judged like "": the street,
      city, postal code and country fail, and the state or province and the eircode pass. */
  lemma NullFieldLikeEmpty(a: Address, i: nat)
    requires i < |Properties(a)|
    ensures A.PropertyValid(Properties(a)[i].(value := A.TextValue(None)))
        <==> A.PropertyValid(Properties(a)[i].(value := A.TextValue(Some(""))))
  {
    var p := Properties(a)[i];
    if p.attributes[0].Required? {
      assert 0 <= 0 < |p.attributes| && p.attributes[0].Required?;
    }
    A.NullLikeEmpty(p.name, p.attributes);
  }
}
