/** The part of `parseCreditReportXML` that both source files share once the report
    root has been found: the output records, the scalar fields read from fixed paths
    and passed through `parseInt`, and the loop over the account list that collects
    the credit cards and the de-duplicated addresses. */
module ReportModel {
  import opened JsStrings
  import opened JsValues
  import opened SafeAccess
  import opened KeyedTable
  import opened FilterBuild

  /** What xml2js's `parseStringPromise` hands over: a tree, or a rejection of the text. */
  datatype ParseOutcome = Parsed(tree: Value) | Unparsable

  /** The failures `parseCreditReportXML` can end in. */
  datatype Error =
    | XmlSyntax    // xml2js rejected the text
    | MissingRoot  // backend/util/xmlParser.js: no truthy INProfileResponse
    | NotAString   // TypeError: `.trim()` on a Subscriber_Name that is not a string
    | Malformed    // backend/utils/xmlParser.js: every failure, rethrown with one message

  datatype BasicDetails = BasicDetails(name: string, mobile: Value, pan: Value, creditScore: IntOrNaN)

  datatype ReportSummary = ReportSummary(
    totalAccounts: IntOrNaN,
    activeAccounts: IntOrNaN,
    closedAccounts: IntOrNaN,
    currentBalanceAmount: IntOrNaN,
    securedAccountsAmount: IntOrNaN,
    unsecuredAccountsAmount: IntOrNaN,
    sevenDayEnquiries: IntOrNaN)

  datatype CreditCard = CreditCard(
    accountNumber: Value,
    bankName: string,
    accountType: Value,
    amountOverdue: IntOrNaN,
    currentBalance: IntOrNaN)

  datatype Address = Address(fullAddress: string, city: Value, state: Value, zip: Value)

  /** The record built for a report: exactly these four sections. */
  datatype ExtractedReport = ExtractedReport(
    basicDetails: BasicDetails,
    reportSummary: ReportSummary,
    creditCards: seq<CreditCard>,
    addresses: seq<Address>)

  /** What the account loop produces. */
  datatype AccountSections = AccountSections(creditCards: seq<CreditCard>, addresses: seq<Address>)

  // ---- the fixed paths, as the keys their dotted literals split into ----

  const RootKey := "INProfileResponse"
  const ApplicantPath: seq<string> :=
    ["Current_Application", "Current_Application_Details", "Current_Applicant_Details"]
  const AccountListPath: seq<string> := ["CAIS_Account", "CAIS_Account_DETAILS"]
  const SummaryPath: seq<string> := ["CAIS_Account", "CAIS_Summary"]
  const ScorePath: seq<string> := ["SCORE", "BureauScore"]
  const EnquiriesPath: seq<string> := ["TotalCAPS_Summary", "TotalCAPSLast7Days"]
  const HolderPath: seq<string> := ["0", "CAIS_Holder_Details"]
  const TotalAccountsPath: seq<string> := ["Credit_Account", "CreditAccountTotal"]
  const ActiveAccountsPath: seq<string> := ["Credit_Account", "CreditAccountActive"]
  const ClosedAccountsPath: seq<string> := ["Credit_Account", "CreditAccountClosed"]
  const CreditCardType := "10"

  /** The source writes each path as one dotted string literal, the keys joined by '.';
      no key holds a dot, so splitting the literal gives the keys back. */
  lemma {:induction false} DottedPaths()
    ensures Split(Join(ApplicantPath, ".")) == ApplicantPath
    ensures Split(Join(AccountListPath, ".")) == AccountListPath
    ensures Split(Join(SummaryPath, ".")) == SummaryPath
    ensures Split(Join(ScorePath, ".")) == ScorePath
    ensures Split(Join(EnquiriesPath, ".")) == EnquiriesPath
    ensures Split(Join(HolderPath, ".")) == HolderPath
    ensures Split(Join(TotalAccountsPath, ".")) == TotalAccountsPath
    ensures Split(Join(ActiveAccountsPath, ".")) == ActiveAccountsPath
    ensures Split(Join(ClosedAccountsPath, ".")) == ClosedAccountsPath
  {
    DottedPath(ApplicantPath);
    DottedPath(AccountListPath);
    DottedPath(SummaryPath);
    DottedPath(ScorePath);
    DottedPath(EnquiriesPath);
    DottedPath(HolderPath);
    DottedPath(TotalAccountsPath);
    DottedPath(ActiveAccountsPath);
    DottedPath(ClosedAccountsPath);
  }

  /** The root key, written as a path of its own, holds no dot. */
  lemma {:induction false} RootPath()
    ensures Split(RootKey) == [RootKey]
  {
    var keys := [RootKey];
    forall i | 0 <= i < |keys| ensures '.' !in keys[i] {
      var key := keys[i];
      forall k | 0 <= k < |key| ensures key[k] != '.' {
      }
    }
    SplitJoin(keys);
  }

  lemma {:induction false} DottedPath(keys: seq<string>)
    requires keys == ApplicantPath || keys == AccountListPath || keys == SummaryPath
             || keys == ScorePath || keys == EnquiriesPath || keys == HolderPath
             || keys == TotalAccountsPath || keys == ActiveAccountsPath || keys == ClosedAccountsPath
    ensures Split(Join(keys, ".")) == keys
  {
    forall i | 0 <= i < |keys| ensures '.' !in keys[i] {
      var key := keys[i];
      forall k | 0 <= k < |key| ensures key[k] != '.' {
      }
    }
    SplitJoin(keys);
  }

  // ---- scalar fields ----

  function Applicant(report: Value): Value
  {
    Lookup(report, ApplicantPath, Null)
  }

  /** `${First_Name} ${Last_Name}`.trim(), each part defaulting to ''. */
  function NameOf(report: Value): string
  {
    var applicant := Applicant(report);
    Trim(ToJsString(Lookup(applicant, ["First_Name"], Str(""))) + " "
         + ToJsString(Lookup(applicant, ["Last_Name"], Str(""))))
  }

  /** The account list, defaulting to `[]` and coerced to a list. */
  function AccountsOf(report: Value): seq<Value>
  {
    AsArray(Lookup(report, AccountListPath, Arr([])))
  }

  /** Income_TAX_PAN of the first account's holder details. */
  function PanOf(accounts: seq<Value>): Value
  {
    Lookup(Lookup(Arr(accounts), HolderPath, Null), ["Income_TAX_PAN"], Null)
  }

  /** `parseInt(safeGet(obj, path, 0), 10)`. */
  function CounterAt(obj: Value, path: seq<string>): IntOrNaN
  {
    ParseIntValue(Lookup(obj, path, Num(0)))
  }

  function BasicDetailsOf(report: Value, accounts: seq<Value>): BasicDetails
  {
    BasicDetails(
      NameOf(report),
      Lookup(Applicant(report), ["MobilePhoneNumber"], Null),
      PanOf(accounts),
      CounterAt(report, ScorePath))
  }

  function SummaryOf(report: Value): ReportSummary
  {
    var summary := Lookup(report, SummaryPath, Null);
    var balance := Lookup(summary, ["Total_Outstanding_Balance"], Null);
    ReportSummary(
      CounterAt(summary, TotalAccountsPath),
      CounterAt(summary, ActiveAccountsPath),
      CounterAt(summary, ClosedAccountsPath),
      CounterAt(balance, ["Outstanding_Balance_All"]),
      CounterAt(balance, ["Outstanding_Balance_Secured"]),
      CounterAt(balance, ["Outstanding_Balance_UnSecured"]),
      CounterAt(report, EnquiriesPath))
  }

  /** A counter is 0 when its path is absent: the default `0` parses to 0. */
  lemma {:induction false} CounterAbsent(obj: Value, path: seq<string>)
    requires Walk(obj, path).None?
    ensures CounterAt(obj, path) == Int(0)
  {
    ParseIntValueOfScalars(0, map[]);
  }

  /** A counter reads back the integer written in decimal at the end of its path. */
  lemma {:induction false} CounterDecimal(obj: Value, path: seq<string>, n: int)
    requires Truthy(obj) && Walk(obj, path) == Some(Str(IntToDecimal(n)))
    ensures CounterAt(obj, path) == Int(n)
  {
    ParseIntOfDecimal(n);
  }

  /** A counter is NaN, not 0, when the text at the end of its path is empty or starts
      with a letter. */
  lemma {:induction false} CounterNoDigits(obj: Value, path: seq<string>, text: string)
    requires Truthy(obj) && Walk(obj, path) == Some(Str(text))
    requires text == [] || IsAlpha(text[0])
    ensures CounterAt(obj, path) == NaN
  {
    assert Lookup(obj, path, Num(0)) == Str(text);
    ParseIntNoDigits(text);
  }

  predicate IsAlpha(c: char) {
    'a' <= c <= 'z' || 'A' <= c <= 'Z'
  }

  /** Every numeric field is 0 when its path, read from the report root, is absent: the
      summary counters are read through the intermediate `summary` and `balance` nodes,
      which amounts to reading the whole path. */
  lemma {:induction false} AbsentNumbersAreZero(report: Value, accounts: seq<Value>)
    ensures Walk(report, ScorePath).None? ==> BasicDetailsOf(report, accounts).creditScore == Int(0)
    ensures var s := SummaryOf(report);
            && (Walk(report, SummaryPath + ["Credit_Account", "CreditAccountTotal"]).None? ==> s.totalAccounts == Int(0))
            && (Walk(report, SummaryPath + ["Credit_Account", "CreditAccountActive"]).None? ==> s.activeAccounts == Int(0))
            && (Walk(report, SummaryPath + ["Credit_Account", "CreditAccountClosed"]).None? ==> s.closedAccounts == Int(0))
            && (Walk(report, SummaryPath + ["Total_Outstanding_Balance", "Outstanding_Balance_All"]).None?
                ==> s.currentBalanceAmount == Int(0))
            && (Walk(report, SummaryPath + ["Total_Outstanding_Balance", "Outstanding_Balance_Secured"]).None?
                ==> s.securedAccountsAmount == Int(0))
            && (Walk(report, SummaryPath + ["Total_Outstanding_Balance", "Outstanding_Balance_UnSecured"]).None?
                ==> s.unsecuredAccountsAmount == Int(0))
            && (Walk(report, EnquiriesPath).None? ==> s.sevenDayEnquiries == Int(0))
  {
    SummaryReadsWholePaths(report);
    ParseIntValueOfScalars(0, map[]);
  }

  /** Each summary field is the counter at one whole path from the report root. */
  lemma {:induction false} SummaryReadsWholePaths(report: Value)
    ensures var s := SummaryOf(report);
            && s.totalAccounts == CounterAt(report, SummaryPath + ["Credit_Account", "CreditAccountTotal"])
            && s.activeAccounts == CounterAt(report, SummaryPath + ["Credit_Account", "CreditAccountActive"])
            && s.closedAccounts == CounterAt(report, SummaryPath + ["Credit_Account", "CreditAccountClosed"])
            && s.currentBalanceAmount
               == CounterAt(report, SummaryPath + ["Total_Outstanding_Balance", "Outstanding_Balance_All"])
            && s.securedAccountsAmount
               == CounterAt(report, SummaryPath + ["Total_Outstanding_Balance", "Outstanding_Balance_Secured"])
            && s.unsecuredAccountsAmount
               == CounterAt(report, SummaryPath + ["Total_Outstanding_Balance", "Outstanding_Balance_UnSecured"])
  {
    var summary := Lookup(report, SummaryPath, Null);
    var balancePath := SummaryPath + ["Total_Outstanding_Balance"];
    LookupChain(report, SummaryPath, ["Credit_Account", "CreditAccountTotal"], Num(0));
    LookupChain(report, SummaryPath, ["Credit_Account", "CreditAccountActive"], Num(0));
    LookupChain(report, SummaryPath, ["Credit_Account", "CreditAccountClosed"], Num(0));
    LookupChain(report, SummaryPath, ["Total_Outstanding_Balance"], Null);
    LookupChain(report, balancePath, ["Outstanding_Balance_All"], Num(0));
    LookupChain(report, balancePath, ["Outstanding_Balance_Secured"], Num(0));
    LookupChain(report, balancePath, ["Outstanding_Balance_UnSecured"], Num(0));
    assert balancePath + ["Outstanding_Balance_All"]
           == SummaryPath + ["Total_Outstanding_Balance", "Outstanding_Balance_All"];
    assert balancePath + ["Outstanding_Balance_Secured"]
           == SummaryPath + ["Total_Outstanding_Balance", "Outstanding_Balance_Secured"];
    assert balancePath + ["Outstanding_Balance_UnSecured"]
           == SummaryPath + ["Total_Outstanding_Balance", "Outstanding_Balance_UnSecured"];
  }

  /** The name never has whitespace at either end; it is '' when both parts are absent,
      and the two parts joined by one space when both are strings without whitespace at
      their ends. */
  lemma {:induction false} NameProperties(report: Value, first: string, last: string)
    ensures var name := NameOf(report);
            name == [] || (!IsSpace(name[0]) && !IsSpace(name[|name| - 1]))
    ensures (Walk(report, ApplicantPath + ["First_Name"]).None? && Walk(report, ApplicantPath + ["Last_Name"]).None?)
            ==> NameOf(report) == ""
    ensures Truthy(report)
            && Walk(report, ApplicantPath + ["First_Name"]) == Some(Str(first))
            && Walk(report, ApplicantPath + ["Last_Name"]) == Some(Str(last))
            && first != [] && !IsSpace(first[0]) && !IsSpace(first[|first| - 1])
            && last != [] && !IsSpace(last[0]) && !IsSpace(last[|last| - 1])
            ==> NameOf(report) == first + " " + last
  {
    var applicant := Applicant(report);
    var parts := ToJsString(Lookup(applicant, ["First_Name"], Str(""))) + " "
                 + ToJsString(Lookup(applicant, ["Last_Name"], Str("")));
    TrimEdges(parts);
    LookupChain(report, ApplicantPath, ["First_Name"], Str(""));
    LookupChain(report, ApplicantPath, ["Last_Name"], Str(""));
    LookupResult(report, ApplicantPath + ["First_Name"], Str(""));
    LookupResult(report, ApplicantPath + ["Last_Name"], Str(""));
    if Walk(report, ApplicantPath + ["First_Name"]).None? && Walk(report, ApplicantPath + ["Last_Name"]).None? {
      assert parts == " ";
      TrimEmptyIffAllSpace(parts);
    }
    var joined := first + " " + last;
    if first != [] && last != [] && !IsSpace(first[0]) && !IsSpace(last[|last| - 1]) {
      assert joined[0] == first[0] && joined[|joined| - 1] == last[|last| - 1];
      TrimOfUnpadded(joined);
    }
  }

  /** The PAN is `null` for an empty account list, and otherwise read from the first
      account alone. */
  lemma {:induction false} PanFromFirstAccount(accounts: seq<Value>)
    ensures accounts == [] ==> PanOf(accounts) == Null
    ensures accounts != [] ==>
              PanOf(accounts) == Lookup(accounts[0], ["CAIS_Holder_Details", "Income_TAX_PAN"], Null)
  {
    LookupChain(Arr(accounts), ["0", "CAIS_Holder_Details"], ["Income_TAX_PAN"], Null);
    assert ["0", "CAIS_Holder_Details"] + ["Income_TAX_PAN"] == ["0", "CAIS_Holder_Details", "Income_TAX_PAN"];
    assert ArrayIndex("0") == Some(0) by {
      assert AllDigits("0");
      assert DigitsValue("0") == 0;
    }
    var path := ["0", "CAIS_Holder_Details", "Income_TAX_PAN"];
    var rest := ["CAIS_Holder_Details", "Income_TAX_PAN"];
    assert path[1..] == rest;
    if accounts != [] {
      assert Member(Arr(accounts), "0") == Some(accounts[0]);
      if !Truthy(accounts[0]) {
        assert Member(accounts[0], rest[0]).None?;
        assert Walk(accounts[0], rest).None?;
        assert Walk(Arr(accounts), path).None?;
      } else {
        assert Walk(Arr(accounts), path) == Walk(accounts[0], rest);
      }
    }
  }

  // ---- the account loop ----

  /** `safeGet(account, 'Account_Type') === '10'`. */
  predicate IsCreditCard(account: Value)
  {
    Lookup(account, ["Account_Type"], Null) == Str(CreditCardType)
  }

  function SubscriberName(account: Value): Value
  {
    Lookup(account, ["Subscriber_Name"], Str(""))
  }

  /** The credit-card entry of an account; `.trim()` throws a TypeError on a
      Subscriber_Name that is not a string. */
  function CardOf(account: Value): Result<CreditCard, Error>
  {
    match SubscriberName(account)
    case Str(name) =>
      Ok(CreditCard(
        Lookup(account, ["Account_Number"], Null),
        Trim(name),
        Lookup(account, ["Account_Type"], Null),
        CounterAt(account, ["Amount_Past_Due"]),
        CounterAt(account, ["Current_Balance"])))
    case _ => Err(NotAString)
  }

  function AddressNode(account: Value): Value
  {
    Lookup(account, ["CAIS_Holder_Address_Details"], Null)
  }

  /** The three address lines, each defaulting to '', joined by single spaces. */
  function JoinedLines(addr: Value): string
  {
    ToJsString(Lookup(addr, ["First_Line_Of_Address_non_normalized"], Str(""))) + " "
    + ToJsString(Lookup(addr, ["Second_Line_Of_Address_non_normalized"], Str(""))) + " "
    + ToJsString(Lookup(addr, ["Third_Line_Of_Address_non_normalized"], Str("")))
  }

  /** The joined lines, trimmed: the key the `addresses` Map is indexed by. */
  function AddressKey(addr: Value): string
  {
    Trim(JoinedLines(addr))
  }

  function AddressOf(addr: Value): Address
  {
    Address(
      CollapseWhitespace(AddressKey(addr)),
      Lookup(addr, ["City_non_normalized"], Null),
      Lookup(addr, ["State_non_normalized"], Null),
      Lookup(addr, ["ZIP_Postal_Code_non_normalized"], Null))
  }

  /** The key an account contributes to the `addresses` Map: none when it has no truthy
      address node or the joined lines are empty. */
  function KeyOf(account: Value): Option<string>
  {
    var addr := AddressNode(account);
    if Truthy(addr) && AddressKey(addr) != "" then Some(AddressKey(addr)) else None
  }

  /** The credit cards of the first `n` accounts, or the first failure among them. */
  function CardsBelow(accounts: seq<Value>, n: nat): Result<seq<CreditCard>, Error>
    requires n <= |accounts|
  {
    BuiltBelow(accounts, n, IsCreditCard, CardOf)
  }

  /** The address key of every account, in order. */
  function AddressKeys(accounts: seq<Value>): (keys: seq<Option<string>>)
    ensures |keys| == |accounts|
  {
    if accounts == [] then []
    else AddressKeys(accounts[..|accounts| - 1]) + [KeyOf(accounts[|accounts| - 1])]
  }

  lemma {:induction false} AddressKeyAt(accounts: seq<Value>, i: nat)
    requires i < |accounts|
    ensures AddressKeys(accounts)[i] == KeyOf(accounts[i])
  {
    if i < |accounts| - 1 {
      AddressKeyAt(accounts[..|accounts| - 1], i);
    }
  }

  function AddressAt(accounts: seq<Value>, i: nat): Address
    requires i < |accounts|
  {
    AddressOf(AddressNode(accounts[i]))
  }

  /** The address entry every account would store, in order. */
  function AddressEntries(accounts: seq<Value>): (entries: seq<Address>)
    ensures |entries| == |accounts|
  {
    if accounts == [] then []
    else AddressEntries(accounts[..|accounts| - 1]) + [AddressAt(accounts, |accounts| - 1)]
  }

  lemma {:induction false} AddressEntryAt(accounts: seq<Value>, i: nat)
    requires i < |accounts|
    ensures AddressEntries(accounts)[i] == AddressAt(accounts, i)
  {
    if i < |accounts| - 1 {
      AddressEntryAt(accounts[..|accounts| - 1], i);
    }
  }

  /** The accounts whose address entry is kept: those first carrying their key. */
  ghost function FirstIndices(accounts: seq<Value>): (r: seq<nat>)
    ensures forall j :: 0 <= j < |r| ==> r[j] < |accounts|
  {
    FirstIndicesBelow(AddressKeys(accounts), |accounts|)
  }

  /** `Array.from(addresses.values())` after the loop. */
  ghost function UniqueAddresses(accounts: seq<Value>): (r: seq<Address>)
    ensures |r| == |FirstIndices(accounts)|
  {
    Dedup(AddressKeys(accounts), AddressEntries(accounts))
  }

  ghost function AccountsSpec(accounts: seq<Value>): Result<AccountSections, Error>
  {
    match CardsBelow(accounts, |accounts|)
    case Err(e) => Err(e)
    case Ok(cards) => Ok(AccountSections(cards, UniqueAddresses(accounts)))
  }

  /** The loop over the account list: pushes the entry of every type-'10' account onto
      `creditCards`, and sets each new non-empty address key in the `addresses` Map,
      kept here as the key order of the Map and the key-to-entry table. */
  method CollectAccounts(accounts: seq<Value>) returns (r: Result<AccountSections, Error>)
    ensures r == AccountsSpec(accounts)
  {
    var creditCards: seq<CreditCard> := [];
    var order: seq<string> := [];
    var entries: map<string, Address> := map[];
    ghost var keys := AddressKeys(accounts);
    ghost var all := AddressEntries(accounts);
    ghost var firsts: seq<nat> := [];
    TableStart(keys, all);
    for i := 0 to |accounts|
      invariant CardsBelow(accounts, i) == Ok(creditCards)
      invariant TableAfter(keys, all, i, order, entries, firsts)
    {
      var account := accounts[i];
      if IsCreditCard(account) {
        var card := CardOf(account);
        if card.Err? {
          assert CardsBelow(accounts, i + 1) == Err(card.error);
          ErrorPersists(accounts, i + 1, |accounts|, IsCreditCard, CardOf);
          return Err(card.error);
        }
        creditCards := creditCards + [card.value];
      }
      var addr := AddressNode(account);
      AddressKeyAt(accounts, i);
      AddressEntryAt(accounts, i);
      if Truthy(addr) {
        var full := AddressKey(addr);
        if full != "" && full !in entries {
          TableAdd(keys, all, i, order, entries, firsts);
          entries := entries[full := AddressOf(addr)];
          order := order + [full];
          firsts := firsts + [i];
        } else {
          TableSkip(keys, all, i, order, entries, firsts);
        }
      } else {
        TableSkip(keys, all, i, order, entries, firsts);
      }
    }
    var addresses := seq(|order|, j requires 0 <= j < |order| => entries[order[j]]);
    TableValues(keys, all, order, entries, firsts);
    assert addresses == UniqueAddresses(accounts);
    assert CardsBelow(accounts, |accounts|) == Ok(creditCards);
    r := Ok(AccountSections(creditCards, addresses));
  }

  // ---- what the account loop promises ----

  /** The card list fails exactly when some type-'10' account has a Subscriber_Name that
      is not a string, and then with that TypeError. */
  lemma {:induction false} CardsFailIff(accounts: seq<Value>)
    ensures CardsBelow(accounts, |accounts|).Err? <==>
              exists i :: 0 <= i < |accounts| && IsCreditCard(accounts[i]) && !SubscriberName(accounts[i]).Str?
    ensures CardsBelow(accounts, |accounts|).Err? ==> CardsBelow(accounts, |accounts|).error == NotAString
  {
    FailsIff(accounts, |accounts|, IsCreditCard, CardOf);
    forall a ensures CardOf(a).Err? <==> !SubscriberName(a).Str? {
    }
  }

  /** Every card entry says type '10', carries the trimmed Subscriber_Name of its
      account, and reads both amounts from that account. */
  lemma {:induction false} CardEntry(account: Value)
    requires IsCreditCard(account) && CardOf(account).Ok?
    ensures var card := CardOf(account).value;
            && card.accountType == Str(CreditCardType)
            && SubscriberName(account).Str?
            && card.bankName == Trim(SubscriberName(account).s)
            && (Walk(account, ["Amount_Past_Due"]).None? ==> card.amountOverdue == Int(0))
            && (Walk(account, ["Current_Balance"]).None? ==> card.currentBalance == Int(0))
  {
    ParseIntValueOfScalars(0, map[]);
  }

  /** `addresses` is the address of each account that first carries a non-empty key,
      in account order, and no two of those accounts carry the same key. */
  lemma {:induction false} AddressesDeduplicated(accounts: seq<Value>)
    ensures var f := FirstIndices(accounts);
            && (forall j :: 0 <= j < |f| ==>
                  UniqueAddresses(accounts)[j] == AddressAt(accounts, f[j]) && KeyOf(accounts[f[j]]).Some?)
            && Increasing(f)
            && (forall p, q :: 0 <= p < q < |f| ==> KeyOf(accounts[f[p]]) != KeyOf(accounts[f[q]]))
  {
    var keys := AddressKeys(accounts);
    var all := AddressEntries(accounts);
    DedupProperties(keys, all);
    forall i | 0 <= i < |accounts| ensures keys[i] == KeyOf(accounts[i]) && all[i] == AddressAt(accounts, i) {
      AddressKeyAt(accounts, i);
      AddressEntryAt(accounts, i);
    }
  }

  /** Every account with a key is represented by the earliest account with that key;
      accounts without an address node or with empty joined lines contribute nothing. */
  lemma {:induction false} AddressesCoverKeys(accounts: seq<Value>)
    ensures var f := FirstIndices(accounts);
            && (forall j, i :: 0 <= j < |f| && 0 <= i < f[j] ==> KeyOf(accounts[i]) != KeyOf(accounts[f[j]]))
            && (forall i :: 0 <= i < |accounts| && KeyOf(accounts[i]).Some? ==>
                  exists j :: 0 <= j < |f| && f[j] <= i && KeyOf(accounts[f[j]]) == KeyOf(accounts[i]))
  {
    var keys := AddressKeys(accounts);
    DedupProperties(keys, AddressEntries(accounts));
    forall i | 0 <= i < |accounts| ensures keys[i] == KeyOf(accounts[i]) {
      AddressKeyAt(accounts, i);
    }
  }

  /** The key of an address node, the trimmed join of its lines, has no whitespace at
      either end. */
  lemma {:induction false} AddressKeyEdges(node: Value)
    ensures var key := AddressKey(node);
            key == [] || (!IsSpace(key[0]) && !IsSpace(key[|key| - 1]))
  {
    TrimEdges(JoinedLines(node));
  }

  /** The entry built from an address node with a non-empty key has a `fullAddress` that
      is non-empty, has no whitespace at either end, no two whitespace characters in a
      row and no whitespace but plain spaces, and keeps the key's text. */
  lemma {:induction false} AddressEntryNormalised(node: Value)
    requires AddressKey(node) != ""
    ensures var full := AddressOf(node).fullAddress;
            && full != []
            && !IsSpace(full[0]) && !IsSpace(full[|full| - 1])
            && NoSpaceRun(full) && OnlyPlainSpaces(full)
            && NonSpace(full) == NonSpace(AddressKey(node))
  {
    AddressKeyEdges(node);
    CollapseOfTrimmed(AddressKey(node));
  }

  /** City, state and zip of an entry are copied verbatim from the node when present
      (`v` stands for any value found there), and null when absent. */
  lemma {:induction false} AddressEntryFields(node: Value, v: Value)
    ensures var a := AddressOf(node);
            && (a.city == Null || Walk(node, ["City_non_normalized"]) == Some(a.city))
            && (a.state == Null || Walk(node, ["State_non_normalized"]) == Some(a.state))
            && (a.zip == Null || Walk(node, ["ZIP_Postal_Code_non_normalized"]) == Some(a.zip))
    ensures var a := AddressOf(node);
            && (Truthy(node) && Walk(node, ["City_non_normalized"]) == Some(v) ==> a.city == v)
            && (Truthy(node) && Walk(node, ["State_non_normalized"]) == Some(v) ==> a.state == v)
            && (Truthy(node) && Walk(node, ["ZIP_Postal_Code_non_normalized"]) == Some(v) ==> a.zip == v)
    ensures var a := AddressOf(node);
            && (Walk(node, ["City_non_normalized"]).None? ==> a.city == Null)
            && (Walk(node, ["State_non_normalized"]).None? ==> a.state == Null)
            && (Walk(node, ["ZIP_Postal_Code_non_normalized"]).None? ==> a.zip == Null)
  {
    LookupResult(node, ["City_non_normalized"], Null);
    LookupResult(node, ["State_non_normalized"], Null);
    LookupResult(node, ["ZIP_Postal_Code_non_normalized"], Null);
  }

  /** Every stored address is such an entry, built from the address node of the account
      that first carried its key. */
  lemma {:induction false} AddressesNormalised(accounts: seq<Value>, j: nat)
    requires j < |UniqueAddresses(accounts)|
    ensures var i := FirstIndices(accounts)[j];
            var node := AddressNode(accounts[i]);
            && Truthy(node) && AddressKey(node) != ""
            && UniqueAddresses(accounts)[j] == AddressOf(node)
  {
    AddressesDeduplicated(accounts);
  }

  /** Two accounts whose keys differ are both kept, even when their keys differ only in
      whitespace inside the text and so give the same `fullAddress`: the Map is keyed by
      the trimmed but uncollapsed lines. Two accounts with the same key keep the first. */
  lemma {:induction false} TwoAccounts(a0: Value, a1: Value)
    requires KeyOf(a0).Some? && KeyOf(a1).Some?
    ensures KeyOf(a0) != KeyOf(a1) ==> UniqueAddresses([a0, a1]) == [AddressOf(AddressNode(a0)), AddressOf(AddressNode(a1))]
    ensures KeyOf(a0) == KeyOf(a1) ==> UniqueAddresses([a0, a1]) == [AddressOf(AddressNode(a0))]
  {
    TwoAccountsListed(a0, a1);
    DedupOfTwo(KeyOf(a0).value, KeyOf(a1).value, AddressOf(AddressNode(a0)), AddressOf(AddressNode(a1)));
  }

  lemma {:induction false} TwoAccountsListed(a0: Value, a1: Value)
    ensures AddressKeys([a0, a1]) == [KeyOf(a0), KeyOf(a1)]
    ensures AddressEntries([a0, a1]) == [AddressOf(AddressNode(a0)), AddressOf(AddressNode(a1))]
  {
    var accounts := [a0, a1];
    assert accounts[..1] == [a0];
    assert [a0][..0] == [];
  }

  /** Everything the report record is made of, read from the report root. */
  ghost function Extract(report: Value): Result<ExtractedReport, Error>
  {
    var accounts := AccountsOf(report);
    match AccountsSpec(accounts)
    case Err(e) => Err(e)
    case Ok(sections) =>
      Ok(ExtractedReport(BasicDetailsOf(report, accounts), SummaryOf(report), sections.creditCards, sections.addresses))
  }

  /** Extraction fails only with the TypeError of a non-string Subscriber_Name, and
      fails exactly when some type-'10' account of the list has one. */
  lemma {:induction false} ExtractFails(report: Value)
    ensures var accounts := AccountsOf(report);
            && (Extract(report).Err? <==>
                  exists i :: 0 <= i < |accounts| && IsCreditCard(accounts[i]) && !SubscriberName(accounts[i]).Str?)
            && (Extract(report).Err? ==> Extract(report).error == NotAString)
  {
    var accounts := AccountsOf(report);
    CardsFailIff(accounts);
  }

  /** A successful extraction holds the cards of the type-'10' filter of the account
      list, in order, each built from its account; the de-duplicated addresses of the
      list; and the PAN of its first account. */
  lemma {:induction false} ExtractSections(report: Value)
    requires Extract(report).Ok?
    ensures var accounts := AccountsOf(report);
            var e := Extract(report).value;
            var chosen := Filter(accounts, IsCreditCard);
            && e.addresses == UniqueAddresses(accounts)
            && |e.creditCards| == |chosen|
            && (forall j :: 0 <= j < |chosen| ==> CardOf(chosen[j]) == Ok(e.creditCards[j]))
            && e.basicDetails.pan == PanOf(accounts)
  {
    var accounts := AccountsOf(report);
    SectionsFollowFilter(accounts);
  }

  lemma {:induction false} SectionsFollowFilter(accounts: seq<Value>)
    requires AccountsSpec(accounts).Ok?
    ensures var sections := AccountsSpec(accounts).value;
            var chosen := Filter(accounts, IsCreditCard);
            && sections.addresses == UniqueAddresses(accounts)
            && |sections.creditCards| == |chosen|
            && (forall j :: 0 <= j < |chosen| ==> CardOf(chosen[j]) == Ok(sections.creditCards[j]))
  {
    FollowsFilter(accounts, |accounts|, IsCreditCard, CardOf);
    assert accounts[..|accounts|] == accounts;
  }
}
