/** The data-annotation attributes the profile classes declare on their
    properties (`[Required]`, `[MinLength]`, `[MaxLength]`, `[Phone]`,
    `[EmailAddress]`), read as data, and what it means for an object to satisfy
    all of them. The classes' constructors never evaluate these attributes; they
    describe the validity a validator would check. */
module Annotations {
  import opened Base
  import Text

  /** What an attribute sees of a property: a (nullable) string, a (nullable)
      list through its element count, or a non-nullable value such as an enum
      or a `DateTime`. */
  datatype PropertyValue =
    | TextValue(text: Option<string>)
    | ListValue(count: Option<nat>)
    | ScalarValue

  /** A format attribute (`[Phone]`, `[EmailAddress]`) is library code whose
      rules are not modelled; it carries its verdict on non-null strings as
      `accepts`. */
  datatype Attribute =
    | Required
    | MinLength(min: nat)
    | MaxLength(max: nat)
    | Format(name: string, accepts: string -> bool)

  datatype Property = Property(name: string, value: PropertyValue, attributes: seq<Attribute>)

  /** The element count or string length `[MinLength]`/`[MaxLength]` compare, if the value is not null. */
  function Length(v: PropertyValue): Option<nat> {
    match v
    case TextValue(t) => if t.Some? then Some(|t.value|) else None
    case ListValue(n) => n
    case ScalarValue => None
  }

  /** One attribute on one value. `[Required]` rejects null and, on strings,
      empty or whitespace-only text; the length and format attributes accept
      null, leaving that case to `[Required]`. Length and format attributes on
      a non-null non-string non-list value are not declared by the model's
      classes; they fail here (the library throws). */
  predicate Satisfies(a: Attribute, v: PropertyValue) {
    match a
    case Required =>
      (match v
       case TextValue(t) => t.Some? && !Text.IsBlank(t.value)
       case ListValue(n) => n.Some?
       case ScalarValue => true)
    case MinLength(min) => v != ScalarValue && (Length(v).None? || Length(v).value >= min)
    case MaxLength(max) => v != ScalarValue && (Length(v).None? || Length(v).value <= max)
    case Format(_, accepts) =>
      (match v
       case TextValue(t) => t.None? || accepts(t.value)
       case _ => false)
  }

  /** A null string fails `[Required]` and nothing else. */
  lemma NullFailsOnlyRequired(a: Attribute)
    ensures Satisfies(a, TextValue(None)) <==> !a.Required?
  {
  }

  /** On a non-null string: `[Required]` asks for one character that is not
      whitespace, and the length attributes compare the character count. */
  lemma TextAttributes(t: string, n: nat)
    ensures Satisfies(Required, TextValue(Some(t))) <==> exists i :: 0 <= i < |t| && !Text.IsWhiteSpace(t[i])
    ensures Satisfies(MinLength(n), TextValue(Some(t))) <==> n <= |t|
    ensures Satisfies(MaxLength(n), TextValue(Some(t))) <==> |t| <= n
    ensures !Satisfies(Required, TextValue(Some(" \t\n"))) && Satisfies(Required, TextValue(Some(" a ")))
  {
    var blank := " \t\n";
    assert Text.IsWhiteSpace(blank[0]) && Text.IsWhiteSpace(blank[1]) && Text.IsWhiteSpace(blank[2]);
    assert !Text.IsWhiteSpace(" a "[1]);
  }

  /** Every attribute declared on the property holds of its value. */
  predicate PropertyValid(p: Property) {
    forall j :: 0 <= j < |p.attributes| ==> Satisfies(p.attributes[j], p.value)
  }

  /** An attribute list that declares `[Required]`, or only `[MaxLength]`:
      the lists the profile classes declare on their string properties. */
  predicate RequiredOrOnlyMaxLength(attributes: seq<Attribute>) {
    (exists j :: 0 <= j < |attributes| && attributes[j].Required?)
    || (forall j :: 0 <= j < |attributes| ==> attributes[j].MaxLength?)
  }

  /** Under such a list, a null string is valid exactly when "" is: `[Required]`
      rejects both, and `[MaxLength]` alone accepts both. */
  lemma NullLikeEmpty(name: string, attributes: seq<Attribute>)
    requires RequiredOrOnlyMaxLength(attributes)
    ensures PropertyValid(Property(name, TextValue(None), attributes))
        <==> PropertyValid(Property(name, TextValue(Some("")), attributes))
  {
    if j :| 0 <= j < |attributes| && attributes[j].Required? {
      assert !Satisfies(attributes[j], TextValue(None));
      assert !Satisfies(attributes[j], TextValue(Some("")));
    }
  }

  /** The name of `p` when it fails an attribute, nothing otherwise. */
  function Report(p: Property): seq<string> {
    if PropertyValid(p) then [] else [p.name]
  }

  /** The property names, in declaration order. */
  function Names(ps: seq<Property>): (r: seq<string>)
    ensures |r| == |ps|
    ensures forall i :: 0 <= i < |ps| ==> r[i] == ps[i].name
  {
    if ps == [] then [] else [ps[0].name] + Names(ps[1..])
  }

  /** The step of `Violations`: a report for the tail of `ps` satisfying the
      four clauses of `Violations`' contract extends, by the report of the
      head, to one for `ps`. */
  lemma ReportCons(ps: seq<Property>, rest: seq<string>)
    requires |ps| > 0
    requires |rest| <= |ps| - 1
    requires rest == [] <==> forall i :: 1 <= i < |ps| ==> PropertyValid(ps[i])
    requires forall n :: n in rest ==> exists i :: 1 <= i < |ps| && ps[i].name == n && !PropertyValid(ps[i])
    requires forall i :: 1 <= i < |ps| && !PropertyValid(ps[i]) ==> ps[i].name in rest
    ensures |Report(ps[0]) + rest| <= |ps|
    ensures Report(ps[0]) + rest == [] <==> forall i :: 0 <= i < |ps| ==> PropertyValid(ps[i])
    ensures forall n :: n in Report(ps[0]) + rest ==>
      exists i :: 0 <= i < |ps| && ps[i].name == n && !PropertyValid(ps[i])
    ensures forall i :: 0 <= i < |ps| && !PropertyValid(ps[i]) ==> ps[i].name in Report(ps[0]) + rest
  {
    var names := Report(ps[0]) + rest;
    forall n | n in names ensures exists i :: 0 <= i < |ps| && ps[i].name == n && !PropertyValid(ps[i]) {
      if n !in rest {
        assert ps[0].name == n && !PropertyValid(ps[0]);
      }
    }
  }

  /** The order step of `Violations`: a report drawn in order from the tail's
      names, extended by the head's report, is drawn in order from all names. */
  lemma ReportConsInOrder(ps: seq<Property>, rest: seq<string>)
    requires |ps| > 0
    requires IsSubsequence(rest, Names(ps[1..]))
    ensures IsSubsequence(Report(ps[0]) + rest, Names(ps))
  {
    var ns := Names(ps);
    assert ns == [ps[0].name] + Names(ps[1..]);
    assert ns[1..] == Names(ps[1..]);
    if PropertyValid(ps[0]) {
      assert Report(ps[0]) + rest == rest;
    } else {
      var xs := Report(ps[0]) + rest;
      assert xs[0] == ns[0] && xs[1..] == rest;
    }
  }

  /** The names of the properties that fail at least one of their attributes,
      one entry per failing property, in declaration order. */
  function Violations(ps: seq<Property>): (names: seq<string>)
    ensures |names| <= |ps|
    ensures names == [] <==> forall i :: 0 <= i < |ps| ==> PropertyValid(ps[i])
    ensures forall n :: n in names ==> exists i :: 0 <= i < |ps| && ps[i].name == n && !PropertyValid(ps[i])
    ensures forall i :: 0 <= i < |ps| && !PropertyValid(ps[i]) ==> ps[i].name in names
    ensures IsSubsequence(names, Names(ps))
  {
    if ps == [] then []
    else
      var rest := Violations(ps[1..]);
      assert forall i :: 1 <= i < |ps| ==> ps[i] == ps[1..][i - 1];
      assert forall n :: n in rest ==> exists i :: 1 <= i < |ps| && ps[i].name == n && !PropertyValid(ps[i]) by {
        forall n | n in rest ensures exists i :: 1 <= i < |ps| && ps[i].name == n && !PropertyValid(ps[i]) {
          var k :| 0 <= k < |ps[1..]| && ps[1..][k].name == n && !PropertyValid(ps[1..][k]);
          assert ps[k + 1] == ps[1..][k];
        }
      }
      ReportCons(ps, rest);
      ReportConsInOrder(ps, rest);
      Report(ps[0]) + rest
  }

  /** When the properties have distinct names, as the members of one class
      do, no name is reported twice. */
  lemma ViolationsDistinct(ps: seq<Property>)
    requires Distinct(Names(ps))
    ensures Distinct(Violations(ps))
  {
    SubsequenceDistinct(Violations(ps), Names(ps));
  }

  /** An object is valid when no declared attribute fails. */
  predicate AllValid(ps: seq<Property>) {
    Violations(ps) == []
  }
}
