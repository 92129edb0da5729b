/** A user's contact details, which own the user's address. */
module Contacts {
  import opened Base
  import opened Calendar
  import Text
  import A = Annotations
  import opened Addresses

  datatype Contact = Contact(
    id: Guid,
    phoneNumber: string,
    email: string,
    address: Address,
    createdAt: DateTime,
    updatedAt: Option<DateTime>)

  /** The constructor: stores the e-mail, the phone number and the address as
      given and checks nothing; `id` and `createdAt` are what the property
      initialisers draw (a fresh GUID, the current instant). */
  function NewContact(id: Guid, email: string, phoneNumber: string, address: Address, createdAt: DateTime): (c: Contact)
    ensures c.email == email && c.phoneNumber == phoneNumber && c.address == address
    ensures c.id == id && c.createdAt == createdAt
    ensures c.updatedAt == None
  {
    Contact(id, phoneNumber, email, address, createdAt, None)
  }

  /** The attributes declared on the class. `isPhone` and `isEmail` stand for the
      library's `[Phone]` and `[EmailAddress]` format rules on non-null strings. */
  function Properties(c: Contact, isPhone: string -> bool, isEmail: string -> bool): seq<A.Property> {
    [ A.Property("PhoneNumber", A.TextValue(Some(c.phoneNumber)),
                 [A.Required, A.Format("Phone", isPhone), A.MaxLength(20)]),
      A.Property("Email", A.TextValue(Some(c.email)),
                 [A.Required, A.Format("EmailAddress", isEmail), A.MaxLength(254)]),
      A.Property("CreatedAt", A.ScalarValue, [A.Required]) ]
  }

  predicate IsValid(c: Contact, isPhone: string -> bool, isEmail: string -> bool) {
    A.AllValid(Properties(c, isPhone, isEmail))
  }

  /** The declared validity, spelled out: the phone number is non-blank, at most
      20 characters and phone-shaped; the e-mail is non-blank, at most 254
      characters and e-mail-shaped. The address is not part of it. */
  lemma ValidIff(c: Contact, isPhone: string -> bool, isEmail: string -> bool)
    ensures IsValid(c, isPhone, isEmail) <==>
      !Text.IsBlank(c.phoneNumber) && |c.phoneNumber| <= 20 && isPhone(c.phoneNumber)
      && !Text.IsBlank(c.email) && |c.email| <= 254 && isEmail(c.email)
  {
    var ps := Properties(c, isPhone, isEmail);
    assert A.PropertyValid(ps[0]) <==> !Text.IsBlank(c.phoneNumber) && |c.phoneNumber| <= 20 && isPhone(c.phoneNumber) by {
      assert ps[0].attributes[0] == A.Required;
      assert ps[0].attributes[1].Format?;
    }
    assert A.PropertyValid(ps[1]) <==> !Text.IsBlank(c.email) && |c.email| <= 254 && isEmail(c.email) by {
      assert ps[1].attributes[0] == A.Required;
      assert ps[1].attributes[1].Format?;
    }
    assert A.PropertyValid(ps[2]) by {
      assert ps[2].attributes[0] == A.Required;
    }
  }

  /** A null phone number or e-mail, which the constructor stores, is judged like "":
      both fail `[Required]`. */
  lemma NullFieldLikeEmpty(c: Contact, isPhone: string -> bool, isEmail: string -> bool, i: nat)
    requires i < 2
    ensures A.PropertyValid(Properties(c, isPhone, isEmail)[i].(value := A.TextValue(None)))
        <==> A.PropertyValid(Properties(c, isPhone, isEmail)[i].(value := A.TextValue(Some(""))))
  {
    var p := Properties(c, isPhone, isEmail)[i];
    if p.attributes[0].Required? {
      assert 0 <= 0 < |p.attributes| && p.attributes[0].Required?;
    }
    A.NullLikeEmpty(p.name, p.attributes);
  }
}
