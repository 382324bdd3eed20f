/** `parseCreditReportXML` of backend/util/xmlParser.js, the older copy: a document
    without a truthy `INProfileResponse` root is rejected with its own error instead of
    being returned as generic data, the record has no `isGeneric` flag, and a failure
    keeps its own message. */
module LegacyReportParser {
  import opened JsStrings
  import opened JsValues
  import opened SafeAccess
  import opened ReportModel
  import ReportParser

  ghost function ParseSpec(input: ParseOutcome): Result<ExtractedReport, Error>
  {
    match input
    case Unparsable => Err(XmlSyntax)
    case Parsed(tree) =>
      if !Truthy(tree) then Err(MissingRoot)
      else
        match Member(tree, RootKey)
        case None => Err(MissingRoot)
        case Some(report) =>
          if !Truthy(report) then Err(MissingRoot) else Extract(report)
  }

  /** The whole function, after xml2js has settled. The field reads go through the
      older `safeGet`, which agrees with the newer one on every non-empty path, and every
      path the function reads is non-empty. */
  method ParseCreditReportXml(input: ParseOutcome) returns (r: Result<ExtractedReport, Error>)
    ensures r == ParseSpec(input)
  {
    if input.Unparsable? {
      return Err(XmlSyntax);
    }
    var result := input.tree;
    if !Truthy(result) || Member(result, RootKey).None? || !Truthy(Member(result, RootKey).value) {
      return Err(MissingRoot);
    }
    var report := Member(result, RootKey).value;
    DottedPaths();
    var listed := SafeGetLegacy(report, Dotted(Join(AccountListPath, ".")), Arr([]));
    LegacyLookupAgrees(report, AccountListPath, Arr([]));
    var allAccounts := AsArray(listed);
    var basicDetails := BasicDetailsOf(report, allAccounts);
    var reportSummary := SummaryOf(report);
    var sections := CollectAccounts(allAccounts);
    if sections.Err? {
      return Err(sections.error);
    }
    r := Ok(ExtractedReport(basicDetails, reportSummary, sections.value.creditCards, sections.value.addresses));
  }

  /** The older copy rejects a document as lacking its root exactly when the tree is
      falsy, has no `INProfileResponse` member, or that member is falsy. */
  lemma {:induction false} MissingRootIff(tree: Value)
    ensures ParseSpec(Parsed(tree)) == Err(MissingRoot) <==>
              !Truthy(tree) || Member(tree, RootKey).None? || !Truthy(Member(tree, RootKey).value)
  {
    if Truthy(tree) && Member(tree, RootKey).Some? && Truthy(Member(tree, RootKey).value) {
      ExtractFails(Member(tree, RootKey).value);
    }
  }

  /** The two copies agree on every input up to how they report trouble: the older one's
      missing-root error is the newer one's generic result, its other errors (XML syntax,
      the TypeError of a non-string Subscriber_Name) are the newer one's "malformed"
      error, and both extract the same record from the same root. */
  lemma {:induction false} LegacyMatchesLive(input: ParseOutcome)
    ensures ParseSpec(input) == Err(XmlSyntax) <==> input.Unparsable?
    ensures input.Parsed? ==>
              (ParseSpec(input) == Err(MissingRoot) <==> ReportParser.ParseSpec(input) == Ok(ReportParser.Generic(input.tree)))
    ensures ParseSpec(input).Err? && ParseSpec(input).error != MissingRoot
            <==> ReportParser.ParseSpec(input) == Err(Malformed)
    ensures forall e :: ParseSpec(input) == Ok(e) <==> ReportParser.ParseSpec(input) == Ok(ReportParser.Report(e))
    ensures ParseSpec(input).Err? ==> ParseSpec(input).error in {XmlSyntax, MissingRoot, NotAString}
  {
    if input.Parsed? {
      var tree := input.tree;
      ReportParser.RootOfTree(tree);
      if Truthy(ReportParser.RootOf(tree)) {
        ExtractFails(ReportParser.RootOf(tree));
      }
    }
  }
}
