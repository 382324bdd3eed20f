/** `parseCreditReportXML` of backend/utils/xmlParser.js: a document without a truthy
    `INProfileResponse` root is handed back whole as generic data; any other document is
    extracted into the report record; every failure, whether of the XML parser or of the
    extraction, becomes the same "malformed" error. */
module ReportParser {
  import opened JsStrings
  import opened JsValues
  import opened SafeAccess
  import opened ReportModel

  /** What the function resolves to: `{isGeneric: true, genericData}` or the extracted
      record with `isGeneric: false`; the flag is the discriminator `Generic?`. */
  datatype ParsedReport = Generic(genericData: Value) | Report(report: ExtractedReport)

  /** `safeGet(result, 'INProfileResponse')`. */
  function RootOf(tree: Value): Value
  {
    Lookup(tree, [RootKey], Null)
  }

  ghost function ParseSpec(input: ParseOutcome): Result<ParsedReport, Error>
  {
    match input
    case Unparsable => Err(Malformed)
    case Parsed(tree) =>
      var report := RootOf(tree);
      if !Truthy(report) then Ok(Generic(tree))
      else
        match Extract(report)
        case Err(_) => Err(Malformed)
        case Ok(e) => Ok(Report(e))
  }

  /** The whole function, after xml2js has settled. */
  method ParseCreditReportXml(input: ParseOutcome) returns (r: Result<ParsedReport, Error>)
    ensures r == ParseSpec(input)
  {
    if input.Unparsable? {
      return Err(Malformed);
    }
    var result := input.tree;
    RootPath();
    var report := SafeGet(result, Dotted(RootKey), Null);
    if !Truthy(report) {
      return Ok(Generic(result));
    }
    DottedPaths();
    var listed := SafeGet(report, Dotted(Join(AccountListPath, ".")), Arr([]));
    var allAccounts := AsArray(listed);
    var basicDetails := BasicDetailsOf(report, allAccounts);
    var reportSummary := SummaryOf(report);
    var sections := CollectAccounts(allAccounts);
    if sections.Err? {
      return Err(Malformed);
    }
    r := Ok(Report(ExtractedReport(basicDetails, reportSummary, sections.value.creditCards, sections.value.addresses)));
  }

  /** The root is missing exactly when the tree is falsy, has no `INProfileResponse`
      member, or that member is falsy; otherwise it is that member. */
  lemma {:induction false} RootOfTree(tree: Value)
    ensures !Truthy(RootOf(tree)) <==>
              !Truthy(tree) || Member(tree, RootKey).None? || !Truthy(Member(tree, RootKey).value)
    ensures Truthy(RootOf(tree)) ==> Member(tree, RootKey) == Some(RootOf(tree))
  {
    var path := [RootKey];
    assert path[0] == RootKey && path[1..] == [];
    match Member(tree, RootKey)
    case None =>
    case Some(w) =>
      assert !w.Null? ==> Walk(tree, path) == Walk(w, []) == Some(w);
  }

  /** A parsed document is generic exactly when the tree is falsy, has no
      `INProfileResponse` member, or that member is falsy; the generic data is then the
      whole parsed tree, unchanged. */
  lemma {:induction false} GenericIffNoRoot(tree: Value)
    ensures ParseSpec(Parsed(tree)).Ok? && ParseSpec(Parsed(tree)).value.Generic?
            <==> !Truthy(tree) || Member(tree, RootKey).None? || !Truthy(Member(tree, RootKey).value)
    ensures ParseSpec(Parsed(tree)).Ok? && ParseSpec(Parsed(tree)).value.Generic?
            ==> ParseSpec(Parsed(tree)).value.genericData == tree
  {
    RootOfTree(tree);
  }

  /** The only error is "malformed", and it is raised exactly when the text does not
      parse, or the root is present and some type-'10' account has a Subscriber_Name
      that is not a string. */
  lemma {:induction false} OnlyMalformed(input: ParseOutcome)
    ensures ParseSpec(input).Err? ==> ParseSpec(input).error == Malformed
    ensures ParseSpec(input).Err? <==>
              input.Unparsable?
              || (var report := RootOf(input.tree);
                  var accounts := AccountsOf(report);
                  && Truthy(report)
                  && exists i :: 0 <= i < |accounts| && IsCreditCard(accounts[i]) && !SubscriberName(accounts[i]).Str?)
  {
    if input.Parsed? {
      ExtractFails(RootOf(input.tree));
    }
  }

  /** A non-generic result is the extraction of the tree's `INProfileResponse` member,
      and a truthy member whose extraction succeeds always gives such a result. */
  lemma {:induction false} ReportIsExtraction(tree: Value, e: ExtractedReport)
    ensures ParseSpec(Parsed(tree)) == Ok(Report(e)) <==>
              && Truthy(tree) && Member(tree, RootKey).Some?
              && Truthy(Member(tree, RootKey).value)
              && Extract(Member(tree, RootKey).value) == Ok(e)
  {
    RootOfTree(tree);
  }
}
