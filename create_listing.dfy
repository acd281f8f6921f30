/** The create-listing form: its validation schema, its default values and the payload it sends. */
module CreateListing {
  import opened Wrappers
  import opened SharedTypes
  import opened JsStrings

  /** The form's values, numbers already coerced; `grade` is the selected text. */
  datatype ListingForm = ListingForm(
    name: string,
    description: string,
    category: string,
    price: real,
    unit: string,
    quantity: real,
    grade: string,
    imageUrl: string)

  /** One failed rule of the schema, in the schema's field order. */
  datatype FormIssue =
    | NameTooShort | DescriptionTooShort | CategoryMissing | PriceNotPositive | UnitMissing
    | QuantityNotInteger | QuantityNotPositive | GradeInvalid | ImageUrlInvalid

  predicate IsInteger(x: real) {
    x == x.Floor as real
  }

  function ParseGrade(g: string): Option<Grade> {
    if g == "A" then Some(A) else if g == "B" then Some(B) else if g == "C" then Some(C) else None
  }

  function Check(ok: bool, issue: FormIssue): seq<FormIssue> {
    if ok then [] else [issue]
  }

  /** The issues `listingSchema` reports, the string lengths in UTF-16 code units as zod counts
      them; `isUrl` is the URL syntax check, a given predicate. */
  function SchemaIssues(f: ListingForm, isUrl: string -> bool): (issues: seq<FormIssue>)
    ensures |issues| <= 9
  {
    Check(Utf16Length(f.name) >= 3, NameTooShort)
    + Check(Utf16Length(f.description) >= 10, DescriptionTooShort)
    + Check(Utf16Length(f.category) >= 1, CategoryMissing)
    + Check(f.price > 0.0, PriceNotPositive)
    + Check(Utf16Length(f.unit) >= 1, UnitMissing)
    + Check(IsInteger(f.quantity), QuantityNotInteger)
    + Check(f.quantity > 0.0, QuantityNotPositive)
    + Check(ParseGrade(f.grade).Some?, GradeInvalid)
    + Check(isUrl(f.imageUrl), ImageUrlInvalid)
  }

  predicate FormValid(f: ListingForm, isUrl: string -> bool) {
    SchemaIssues(f, isUrl) == []
  }

  /** A form validates exactly when the name has at least 3 code units, the description at
      least 10, category and unit are non-empty, the price is positive, the quantity a
      positive integer, the grade A, B or C and the image a URL. */
  lemma FormValidIff(f: ListingForm, isUrl: string -> bool)
    ensures FormValid(f, isUrl) <==>
      && Utf16Length(f.name) >= 3 && Utf16Length(f.description) >= 10 && f.category != "" && f.price > 0.0 && f.unit != ""
      && IsInteger(f.quantity) && f.quantity > 0.0 && f.grade in {"A", "B", "C"} && isUrl(f.imageUrl)
  {
  }

  /** Each issue is reported exactly when its rule fails. */
  lemma IssueReportedIff(f: ListingForm, isUrl: string -> bool)
    ensures NameTooShort in SchemaIssues(f, isUrl) <==> Utf16Length(f.name) < 3
    ensures PriceNotPositive in SchemaIssues(f, isUrl) <==> f.price <= 0.0
    ensures QuantityNotInteger in SchemaIssues(f, isUrl) <==> !IsInteger(f.quantity)
    ensures GradeInvalid in SchemaIssues(f, isUrl) <==> f.grade !in {"A", "B", "C"}
    ensures DescriptionTooShort in SchemaIssues(f, isUrl) <==> Utf16Length(f.description) < 10
    ensures CategoryMissing in SchemaIssues(f, isUrl) <==> f.category == ""
    ensures UnitMissing in SchemaIssues(f, isUrl) <==> f.unit == ""
    ensures QuantityNotPositive in SchemaIssues(f, isUrl) <==> f.quantity <= 0.0
    ensures ImageUrlInvalid in SchemaIssues(f, isUrl) <==> !isUrl(f.imageUrl)
  {
    NameIssueIff(f, isUrl);
    OtherIssuesIff(f, isUrl);
    RemainingIssuesIff(f, isUrl);
  }

  lemma NameIssueIff(f: ListingForm, isUrl: string -> bool)
    ensures NameTooShort in SchemaIssues(f, isUrl) <==> Utf16Length(f.name) < 3
  {
  }

  lemma RemainingIssuesIff(f: ListingForm, isUrl: string -> bool)
    ensures DescriptionTooShort in SchemaIssues(f, isUrl) <==> Utf16Length(f.description) < 10
    ensures CategoryMissing in SchemaIssues(f, isUrl) <==> f.category == ""
    ensures UnitMissing in SchemaIssues(f, isUrl) <==> f.unit == ""
    ensures QuantityNotPositive in SchemaIssues(f, isUrl) <==> f.quantity <= 0.0
    ensures ImageUrlInvalid in SchemaIssues(f, isUrl) <==> !isUrl(f.imageUrl)
  {
  }

  lemma OtherIssuesIff(f: ListingForm, isUrl: string -> bool)
    ensures PriceNotPositive in SchemaIssues(f, isUrl) <==> f.price <= 0.0
    ensures QuantityNotInteger in SchemaIssues(f, isUrl) <==> !IsInteger(f.quantity)
    ensures GradeInvalid in SchemaIssues(f, isUrl) <==> f.grade !in {"A", "B", "C"}
  {
  }

  /** A name of two characters passes the three-unit minimum when one of them lies beyond the
      Basic Multilingual Plane; three characters of the plane always pass. */
  lemma NameLengthInCodeUnits(f: ListingForm, isUrl: string -> bool)
    ensures f.name == "a\U{1F600}" ==> |f.name| == 2 && NameTooShort !in SchemaIssues(f, isUrl)
    ensures |f.name| >= 3 && (forall i :: 0 <= i < |f.name| ==> f.name[i] as int <= 0xFFFF) ==>
      NameTooShort !in SchemaIssues(f, isUrl)
  {
    if f.name == "a\U{1F600}" {
      assert f.name[1..] == "\U{1F600}";
      assert f.name[1..][1..] == "";
    }
    IssueReportedIff(f, isUrl);
    if forall i :: 0 <= i < |f.name| ==> f.name[i] as int <= 0xFFFF {
      Utf16LengthOfBmp(f.name);
    }
  }

  const DefaultImageUrl := "https://images.unsplash.com/photo-1598170845058-32b9d6a5da37?q=80&w=800"

  const DefaultForm: ListingForm := ListingForm("", "", "", 0.0, "kg", 1.0, "A", DefaultImageUrl)

  /** The default values do not validate: the name, description and category are empty and
      the price is 0; the other defaults pass their rules. */
  lemma DefaultFormInvalid(isUrl: string -> bool)
    ensures !FormValid(DefaultForm, isUrl)
    ensures SchemaIssues(DefaultForm, isUrl)[..4] == [NameTooShort, DescriptionTooShort, CategoryMissing, PriceNotPositive]
  {
    assert 1.0 == (1.0).Floor as real;
  }

  /** What submitting does. */
  datatype SubmitOutcome = Invalid(issues: seq<FormIssue>) | NotLoggedIn | Send(payload: ListingDraft)

  /** `onSubmit` behind the schema: nothing is sent for an invalid form or without a user;
      otherwise the form's fields, the user's id as `farmerId` and the formatted submission
      time as `harvestDate`. */
  function Submit(f: ListingForm, isUrl: string -> bool, userId: Option<string>, harvestDate: string): (r: SubmitOutcome)
    ensures r.Send? <==> FormValid(f, isUrl) && userId.Some?
    ensures r.Send? ==>
      && r.payload.farmerId == userId.value && r.payload.harvestDate == harvestDate
      && r.payload.name == f.name && r.payload.description == f.description
      && r.payload.category == f.category && r.payload.price == f.price && r.payload.unit == f.unit
      && r.payload.quantity == f.quantity && Some(r.payload.grade) == ParseGrade(f.grade)
      && r.payload.imageUrl == f.imageUrl
  {
    var issues := SchemaIssues(f, isUrl);
    if issues != [] then Invalid(issues)
    else if userId.None? then NotLoggedIn
    else
      FormValidIff(f, isUrl);
      Send(ListingDraft(userId.value, f.name, f.description, f.category, f.price, f.unit, f.quantity,
                        ParseGrade(f.grade).value, harvestDate, f.imageUrl))
  }

  /** A payload the page sends for a user with an id always passes the server's required
      field check; a positive integer quantity and positive price are carried over. */
  lemma SentPayloadHasRequiredFields(f: ListingForm, isUrl: string -> bool, userId: string, harvestDate: string)
    requires userId != ""
    requires Submit(f, isUrl, Some(userId), harvestDate).Send?
    ensures var p := Submit(f, isUrl, Some(userId), harvestDate).payload;
      p.name != "" && p.farmerId != "" && p.price > 0.0 && p.quantity > 0.0 && IsInteger(p.quantity)
  {
    FormValidIff(f, isUrl);
  }
}
