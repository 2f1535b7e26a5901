/** The customer record the dashboard receives and what `CustomerProfile`
    derives from it (src/App.jsx): the five totals and the small display
    rules (segment label, gender, investment return badge, `InfoRow` fallback).
    A field of type Option stands for an optional chain such as
    `profile?.personal_info?.gender`: None when any link is null or undefined. */
module Profile {
  import opened Wrappers
  import opened Js
  import opened JsString
  import Utils

  datatype Account = Account(accountType: Option<string>, accountStatus: Option<string>, balance: Option<int>)
  datatype Loan = Loan(loanStatus: Option<string>, outstandingBalance: Option<int>)
  datatype Card = Card(outstandingBalance: Option<int>)
  datatype Investment = Investment(currentValue: Option<int>, returnPercentage: Numeric)

  /** One element of the service's `data` list. */
  datatype Customer = Customer(
    customerId: string,
    fullName: Option<string>,          // customer.personal_info.full_name
    gender: Option<string>,            // customer.personal_info.gender
    statusSegment: Option<string>,     // customer.status.segment
    accounts: Option<seq<Account>>,
    loans: Option<seq<Loan>>,
    cards: Option<seq<Card>>,
    investments: Option<seq<Investment>>,
    currentSegment: Option<string>,    // segment.current_segment
    potentialSegment: Option<string>)  // segment.potential_segment

  // ----- Totals -----

  /** `x || 0` on an amount. */
  function AmountOrZero(v: Option<int>): (r: int)
    ensures v.Some? ==> r == v.value
    ensures v.None? ==> r == 0
  {
    v.GetOr(0)
  }

  /** `xs.reduce((sum, x) => sum + (amount(x) || 0), 0)`, folding from the left. */
  function Reduce<T>(xs: seq<T>, amount: T -> Option<int>): (r: int)
    ensures (forall k :: 0 <= k < |xs| ==> amount(xs[k]).None?) ==> r == 0
  {
    if xs == [] then 0
    else
      var init := xs[..|xs| - 1];
      assert forall k :: 0 <= k < |init| ==> init[k] == xs[k];
      Reduce(init, amount) + AmountOrZero(amount(xs[|xs| - 1]))
  }

  function BalanceOf(a: Account): Option<int> { a.balance }
  function LoanOutstanding(l: Loan): Option<int> { l.outstandingBalance }
  function CardOutstanding(c: Card): Option<int> { c.outstandingBalance }
  function InvestmentValue(i: Investment): Option<int> { i.currentValue }

  /** `accounts?.length || 0`. */
  function TotalAccounts(c: Customer): (r: nat)
    ensures c.accounts.None? ==> r == 0
    ensures c.accounts.Some? ==> r == |c.accounts.value|
  {
    if c.accounts.Some? then |c.accounts.value| else 0
  }


  // ----- Reference definition of a total: the sum of the amounts that are present -----

  function Amounts<T>(xs: seq<T>, amount: T -> Option<int>): (r: seq<Option<int>>)
    ensures |r| == |xs|
    ensures forall k :: 0 <= k < |xs| ==> r[k] == amount(xs[k])
  {
    seq(|xs|, k requires 0 <= k < |xs| => amount(xs[k]))
  }

  /** The present values, in order; missing ones are skipped. */
  function PresentValues(vs: seq<Option<int>>): seq<int> {
    if vs == [] then []
    else (if vs[0].Some? then [vs[0].value] else []) + PresentValues(vs[1..])
  }

  function Sum(xs: seq<int>): int {
    if xs == [] then 0 else xs[0] + Sum(xs[1..])
  }

  /** The sum of the present amounts of a list, 0 for a missing list. */
  function PresentTotal<T>(xs: Option<seq<T>>, amount: T -> Option<int>): int {
    match xs
    case None => 0
    case Some(s) => Sum(PresentValues(Amounts(s, amount)))
  }

  lemma {:induction false} SumAppend(a: seq<int>, b: seq<int>)
    ensures Sum(a + b) == Sum(a) + Sum(b)
  {
    if a == [] {
      assert a + b == b;
    } else {
      SumAppend(a[1..], b);
      assert (a + b)[0] == a[0];
      assert (a + b)[1..] == a[1..] + b;
    }
  }

  lemma {:induction false} PresentValuesAppend(a: seq<Option<int>>, b: seq<Option<int>>)
    ensures PresentValues(a + b) == PresentValues(a) + PresentValues(b)
  {
    if a == [] {
      assert a + b == b;
    } else {
      var c := a + b;
      assert c[0] == a[0];
      assert c[1..] == a[1..] + b;
      PresentValuesAppend(a[1..], b);
      var head := if a[0].Some? then [a[0].value] else [];
      assert PresentValues(c) == head + PresentValues(c[1..]);
      assert PresentValues(a) == head + PresentValues(a[1..]);
    }
  }

  /** The fold counts a missing amount as 0, so it equals the sum of the present amounts. */
  lemma {:induction false} ReduceIsSumOfPresent<T>(xs: seq<T>, amount: T -> Option<int>)
    ensures Reduce(xs, amount) == Sum(PresentValues(Amounts(xs, amount)))
  {
    if xs != [] {
      var init, last := xs[..|xs| - 1], xs[|xs| - 1];
      ReduceIsSumOfPresent(init, amount);
      assert Amounts(xs, amount) == Amounts(init, amount) + [amount(last)];
      PresentValuesAppend(Amounts(init, amount), [amount(last)]);
      var tail := if amount(last).Some? then [amount(last).value] else [];
      assert PresentValues([amount(last)]) == tail;
      SumAppend(PresentValues(Amounts(init, amount)), tail);
    }
  }

  /** `xs?.reduce(...) || 0`: the sum of the present amounts, 0 for a missing list. */
  function Total<T>(xs: Option<seq<T>>, amount: T -> Option<int>): (r: int)
    ensures r == PresentTotal(xs, amount)
  {
    match xs
    case None => 0
    case Some(s) =>
      ReduceIsSumOfPresent(s, amount);
      Reduce(s, amount)
  }

  /** `totalBalance`: the sum of the account balances that are present. */
  function TotalBalance(c: Customer): (r: int)
    ensures r == PresentTotal(c.accounts, BalanceOf)
  {
    Total(c.accounts, BalanceOf)
  }

  /** `totalLoans`: the sum of the loans' outstanding balances that are present. */
  function TotalLoans(c: Customer): (r: int)
    ensures r == PresentTotal(c.loans, LoanOutstanding)
  {
    Total(c.loans, LoanOutstanding)
  }

  /** `totalCards`: the sum of the cards' outstanding balances that are present. */
  function TotalCards(c: Customer): (r: int)
    ensures r == PresentTotal(c.cards, CardOutstanding)
  {
    Total(c.cards, CardOutstanding)
  }

  /** `totalInvestments`: the sum of the investments' current values that are present. */
  function TotalInvestments(c: Customer): (r: int)
    ensures r == PresentTotal(c.investments, InvestmentValue)
  {
    Total(c.investments, InvestmentValue)
  }

  /** Totals are additive over concatenation of the lists. */
  lemma {:induction false} ReduceAppend<T>(a: seq<T>, b: seq<T>, amount: T -> Option<int>)
    ensures Reduce(a + b, amount) == Reduce(a, amount) + Reduce(b, amount)
  {
    if b != [] {
      var init := b[..|b| - 1];
      assert (a + b)[..|a + b| - 1] == a + init;
      assert (a + b)[|a + b| - 1] == b[|b| - 1];
      ReduceAppend(a, init, amount);
    } else {
      assert a + b == a;
    }
  }

  /** A missing or empty list totals 0, for the count and each of the four money totals. */
  lemma EmptyListsTotalZero(c: Customer)
    ensures c.accounts.None? || c.accounts == Some([]) ==> TotalBalance(c) == 0 && TotalAccounts(c) == 0
    ensures c.loans.None? || c.loans == Some([]) ==> TotalLoans(c) == 0
    ensures c.cards.None? || c.cards == Some([]) ==> TotalCards(c) == 0
    ensures c.investments.None? || c.investments == Some([]) ==> TotalInvestments(c) == 0
  {
  }

  /** Three accounts, the second without a balance, total 150000. */
  lemma TotalBalanceSkipsMissing(c: Customer)
    requires c.accounts == Some([Account(None, None, Some(100000)), Account(None, None, None),
                                 Account(None, None, Some(50000))])
    ensures TotalBalance(c) == 150000 && TotalAccounts(c) == 3
  {
    var s := c.accounts.value;
    assert s[..2][..1] == s[..1];
    assert Reduce(s[..1], BalanceOf) == 100000 by {
      assert s[..1][..0] == [];
    }
    assert Reduce(s[..2], BalanceOf) == 100000;
  }

  // ----- Display rules -----

  /** `segment?.replace('_', ' ').toUpperCase()`: undefined stays undefined. */
  function SegmentLabel(segment: Option<string>): (r: Option<string>)
    ensures r.Some? <==> segment.Some?
    ensures segment.Some? ==> |r.value| == |segment.value|
  {
    match segment
    case None => None
    case Some(s) => Some(ToUpperCase(ReplaceFirst(s, '_', ' ')))
  }

  /** Only the first underscore becomes a space; later ones stay, upper-cased
      text around them. */
  lemma SegmentLabelFirstUnderscoreOnly(a: string, b: string)
    requires '_' !in a
    ensures SegmentLabel(Some(a + "_" + b)) == Some(ToUpperCase(a) + " " + ToUpperCase(b))
  {
    var s := a + "_" + b;
    assert s[..|a|] == a && s[|a| + 1..] == b && s[|a|] == '_';
    ReplaceFirstAt(s, |a|, '_', ' ');
    assert ReplaceFirst(s, '_', ' ') == (a + " ") + b;
    UpperCaseConcat(a + " ", b);
    UpperCaseConcat(a, " ");
    assert ToUpperCase(" ") == " ";
  }

  /** A label without underscores is only upper-cased. */
  lemma SegmentLabelNoUnderscore(s: string)
    requires '_' !in s
    ensures SegmentLabel(Some(s)) == Some(ToUpperCase(s))
  {
    ReplaceFirstAbsent(s, '_', ' ');
  }

  /** The two-word segment name: its underscore becomes a space. */
  lemma MassAffluentLabel(segment: string)
    requires segment == "mass_affluent"
    ensures SegmentLabel(Some(segment)) == Some("MASS AFFLUENT")
  {
    var a, b := "mass", "affluent";
    assert segment == a + "_" + b;
    SegmentLabelFirstUnderscoreOnly(a, b);
    var u, v := ToUpperCase(a), ToUpperCase(b);
    assert u == "MASS" by { assert forall k | 0 <= k < 4 :: u[k] == "MASS"[k]; }
    assert v == "AFFLUENT" by { assert forall k | 0 <= k < 8 :: v[k] == "AFFLUENT"[k]; }
    var x := u + " " + v;
    assert x == "MASS AFFLUENT" by { assert forall k | 0 <= k < 13 :: x[k] == "MASS AFFLUENT"[k]; }
  }

  /** The three-word segment name keeps its second underscore: "HIGH NET_WORTH". */
  lemma HighNetWorthLabel(segment: string)
    requires segment == "high_net_worth"
    ensures SegmentLabel(Some(segment)) == Some("HIGH NET_WORTH")
  {
    var a, b := "high", "net_worth";
    assert segment == a + "_" + b;
    SegmentLabelFirstUnderscoreOnly(a, b);
    var u, v := ToUpperCase(a), ToUpperCase(b);
    assert u == "HIGH" by { assert forall k | 0 <= k < 4 :: u[k] == "HIGH"[k]; }
    assert v == "NET_WORTH" by { assert forall k | 0 <= k < 9 :: v[k] == "NET_WORTH"[k]; }
    var x := u + " " + v;
    assert x == "HIGH NET_WORTH" by { assert forall k | 0 <= k < 14 :: x[k] == "HIGH NET_WORTH"[k]; }
  }

  /** The header badge's class: the segment's colour classes followed by " border". */
  function SegmentBadgeClass(c: Customer): (r: string)
    ensures r == Utils.GetSegmentBadgeColor(c.statusSegment) + " border"
    ensures exists colors :: colors in Utils.SegmentColors.Values && r == colors + " border"
  {
    Utils.GetSegmentBadgeColor(c.statusSegment) + " border"
  }

  /** `gender === 'M' ? 'Male' : 'Female'`: anything but "M", missing included, shows Female. */
  function GenderLabel(gender: Option<string>): (r: string)
    ensures r == "Male" <==> gender == Some("M")
    ensures r == "Male" || r == "Female"
  {
    if gender == Some("M") then "Male" else "Female"
  }

  const GainStyle := "bg-green-100 text-green-800"
  const LossStyle := "bg-red-100 text-red-800"

  /** The return badge of an investment: its colour classes and the sign put before the number. */
  datatype ReturnBadgeView = ReturnBadgeView(style: string, sign: string)

  /** `return_percentage >= 0` picks green and a "+" prefix, otherwise red and no prefix. */
  function ReturnBadge(returnPercentage: Numeric): (b: ReturnBadgeView)
    ensures b.style == GainStyle <==> b.sign == "+"
    ensures b.style == GainStyle || b.style == LossStyle
    ensures b.sign == "+" || b.sign == ""
    ensures returnPercentage.Finite? ==> (b.sign == "+" <==> returnPercentage.value >= 0.0)
    ensures returnPercentage.Absent? ==> b == ReturnBadgeView(LossStyle, "")
    ensures returnPercentage.NullNumber? ==> b == ReturnBadgeView(GainStyle, "+")
  {
    if AtLeastZero(returnPercentage) then ReturnBadgeView(GainStyle, "+") else ReturnBadgeView(LossStyle, "")
  }

  /** `value || '-'` in `InfoRow`: a falsy value (undefined, null, false, 0, "")
      shows as "-", anything else as itself. */
  function InfoRowValue(v: Value): (r: Value)
    ensures Truthy(r)
    ensures Truthy(v) ==> r == v
    ensures !Truthy(v) ==> r == Str("-")
  {
    if Truthy(v) then v else Str("-")
  }

  /** An optional text as a JavaScript value: a broken optional chain gives undefined. */
  function TextValue(t: Option<string>): Value {
    match t
    case None => Undefined
    case Some(s) => Str(s)
  }

  /** An `InfoRow` showing an optional text field: "-" when it is missing or empty. */
  function TextRow(t: Option<string>): (r: Value)
    ensures t.None? || t == Some("") ==> r == Str("-")
    ensures t.Some? && t.value != "" ==> r == Str(t.value)
  {
    InfoRowValue(TextValue(t))
  }

  /** The "Full Name" row of the personal information card. */
  function FullNameRow(c: Customer): (r: Value)
    ensures c.fullName.None? || c.fullName == Some("") ==> r == Str("-")
    ensures c.fullName.Some? && c.fullName.value != "" ==> r == Str(c.fullName.value)
  {
    TextRow(c.fullName)
  }

  /** The "Gender" row: the label is never falsy, so the row shows it unchanged. */
  function GenderRow(c: Customer): (r: Value)
    ensures r == Str("Male") <==> c.gender == Some("M")
    ensures r == Str("Male") || r == Str("Female")
  {
    InfoRowValue(Str(GenderLabel(c.gender)))
  }

  /** The "Current Segment" row: "-" for a missing or empty segment, its label otherwise. */
  function CurrentSegmentRow(c: Customer): (r: Value)
    ensures c.currentSegment.None? || c.currentSegment == Some("") ==> r == Str("-")
    ensures c.currentSegment.Some? && c.currentSegment.value != "" ==> r == Str(SegmentLabel(c.currentSegment).value)
  {
    TextRow(SegmentLabel(c.currentSegment))
  }

  /** The "Potential Segment" row, by the same rule. */
  function PotentialSegmentRow(c: Customer): (r: Value)
    ensures c.potentialSegment.None? || c.potentialSegment == Some("") ==> r == Str("-")
    ensures c.potentialSegment.Some? && c.potentialSegment.value != "" ==> r == Str(SegmentLabel(c.potentialSegment).value)
  {
    TextRow(SegmentLabel(c.potentialSegment))
  }

  /** The "Type" row of an account card. */
  function AccountTypeRow(a: Account): (r: Value)
    ensures a.accountType.None? || a.accountType == Some("") ==> r == Str("-")
    ensures a.accountType.Some? && a.accountType.value != "" ==> r == Str(a.accountType.value)
  {
    TextRow(a.accountType)
  }

  /** The status badge class of an account. */
  function AccountStatusClass(a: Account): (r: string)
    ensures r == Utils.GetProductStatusColor(a.accountStatus)
    ensures r in Utils.StatusColors.Values && r != ""
  {
    Utils.GetProductStatusColor(a.accountStatus)
  }

  /** The status badge class of a loan. */
  function LoanStatusClass(l: Loan): (r: string)
    ensures r == Utils.GetProductStatusColor(l.loanStatus)
    ensures r in Utils.StatusColors.Values && r != ""
  {
    Utils.GetProductStatusColor(l.loanStatus)
  }
}
