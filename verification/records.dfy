/** The site record delivered by the upstream API, as far as the dashboard reads it.
    Every field the dashboard treats as optional is an `Option`; a date is its raw text
    together with the instant the runtime parses it to. */
module Records {
  import opened Common

  /** A date field: the raw text and `new Date(raw)` (None for an Invalid Date).
      Absent, `null` and `""` are all represented by an empty `raw`. Every reader tests the
      field for truthiness (`Present`) before it looks at `time`, so the instant of an empty
      field never reaches a result; it is left unconstrained rather than forced to None, which
      also covers `new Date(null)`, the valid instant 0. */
  datatype DateText = DateText(raw: string, time: Option<int>)

  /** The field is truthy, i.e. non-empty. */
  predicate Present(d: DateText) {
    d.raw != []
  }

  /** The text parses to a valid instant. */
  predicate Parses(d: DateText) {
    d.time.Some?
  }

  /** One entry of a site's `recommendations` list. Amounts are exact numbers. */
  datatype Recommendation = Recommendation(
    potentialSavings: Option<real>,
    potentialCarbonSavings: Option<real>)

  /** The `elecMeter`/`gasMeter` field: absent (or another falsy value), some non-object
      value, or an object whose own enumerable keys are listed in order. */
  datatype MeterField = NoMeter | NotObject | MeterObject(keys: seq<string>)

  datatype SiteRecord = SiteRecord(
    agentName: Option<string>,
    siteStatus: Option<string>,
    createdAt: DateText,
    onboardDate: DateText,
    contactEmail: Option<string>,
    loggedInContacts: Option<int>,
    recommendations: Option<seq<Recommendation>>,
    siteAddress: Option<string>,
    displayName: Option<string>,
    companyName: Option<string>,
    elecMeter: MeterField,
    gasMeter: MeterField)

  /** A string field is truthy: present and non-empty. */
  predicate Truthy(o: Option<string>) {
    o.Some? && o.value != []
  }

  /** The field's value when it is truthy, otherwise `fallback`. */
  function OrElse(o: Option<string>, fallback: string): (r: string)
    ensures Truthy(o) ==> r == o.value
    ensures !Truthy(o) ==> r == fallback
  {
    if Truthy(o) then o.value else fallback
  }

  /** The site's status is exactly "ACTIVE". */
  predicate IsActive(r: SiteRecord) {
    r.siteStatus == Some("ACTIVE")
  }

  /** The login count, with a missing count taken as 0. */
  function LoggedIn(r: SiteRecord): int {
    r.loggedInContacts.GetOr(0)
  }

  /** The distinct truthy contact emails of some records, compared exactly as stored
      (`new Set(records.map(r => r.contact_email).filter(Boolean))`). */
  function Contacts(rs: seq<SiteRecord>): (c: set<string>)
    ensures |c| <= |rs|
    ensures forall e :: e in c <==> exists i :: 0 <= i < |rs| && Truthy(rs[i].contactEmail) && rs[i].contactEmail.value == e
  {
    if rs == [] then {}
    else
      var init, last := rs[..|rs| - 1], rs[|rs| - 1];
      var c := Contacts(init);
      var next := if Truthy(last.contactEmail) then c + {last.contactEmail.value} else c;
      ContactsStep(init, last, c, next);
      assert rs == init + [last];
      next
  }

  lemma ContactsStep(init: seq<SiteRecord>, last: SiteRecord, c: set<string>, next: set<string>)
    requires forall e :: e in c <==> exists i :: 0 <= i < |init| && Truthy(init[i].contactEmail) && init[i].contactEmail.value == e
    requires next == if Truthy(last.contactEmail) then c + {last.contactEmail.value} else c
    ensures forall e :: e in next <==>
              exists i :: 0 <= i < |init + [last]| && Truthy((init + [last])[i].contactEmail) && (init + [last])[i].contactEmail.value == e
  {
    var rs := init + [last];
    assert forall i :: 0 <= i < |init| ==> rs[i] == init[i];
    assert rs[|init|] == last;
  }

  /** One more record adds its truthy contact email, if any. */
  lemma ContactsSnoc(rs: seq<SiteRecord>, r: SiteRecord)
    ensures Contacts(rs + [r]) == if Truthy(r.contactEmail) then Contacts(rs) + {r.contactEmail.value} else Contacts(rs)
  {
    var s := rs + [r];
    assert s[..|s| - 1] == rs && s[|s| - 1] == r;
  }
}
