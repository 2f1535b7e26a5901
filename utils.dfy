/** The formatting and classification helpers of the dashboard
    (src/lib/utils.js). The locale formatting behind `Intl.NumberFormat` and
    `toLocaleDateString` is not modelled: each formatter takes it as a
    function parameter and only its own early-return branch is defined here. */
module Utils {
  import opened Wrappers
  import opened Js

  // ----- Formatters: the falsy-input branches -----

  const ZeroRupiah := "Rp 0"
  const NoDate := "-"
  const ZeroNumber := "0"

  /** `formatCurrency(amount)`: "Rp 0" for 0, null or undefined, otherwise the
      locale's IDR rendering of the amount (`intl`). */
  function FormatCurrency(amount: Option<int>, intl: int -> string): (r: string)
    ensures amount.None? || amount == Some(0) ==> r == ZeroRupiah
    ensures amount.Some? && amount.value != 0 ==> r == intl(amount.value)
  {
    if amount.None? || amount.value == 0 then ZeroRupiah else intl(amount.value)
  }

  /** `formatDate(dateString)`: "-" for null, undefined or the empty string,
      otherwise the locale's long date (`locale`). */
  function FormatDate(date: Option<string>, locale: string -> string): (r: string)
    ensures date.None? || date == Some("") ==> r == NoDate
    ensures date.Some? && date.value != "" ==> r == locale(date.value)
  {
    if date.None? || date.value == "" then NoDate else locale(date.value)
  }

  /** `formatNumber(num)`: "0" for 0, null or undefined, otherwise the locale's
      grouped rendering (`intl`). */
  function FormatNumber(num: Option<int>, intl: int -> string): (r: string)
    ensures num.None? || num == Some(0) ==> r == ZeroNumber
    ensures num.Some? && num.value != 0 ==> r == intl(num.value)
  {
    if num.None? || num.value == 0 then ZeroNumber else intl(num.value)
  }

  /** Zero and a missing amount render identically, whatever the locale does. */
  lemma ZeroAmountsRenderAlike(intl: int -> string, intl': int -> string,
                               locale: string -> string, locale': string -> string)
    ensures FormatCurrency(None, intl) == FormatCurrency(Some(0), intl') == ZeroRupiah
    ensures FormatNumber(None, intl) == FormatNumber(Some(0), intl') == ZeroNumber
    ensures FormatDate(None, locale) == FormatDate(Some(""), locale') == NoDate
  {
  }

  // ----- Classification tables -----

  const SegmentColors: map<string, string> := map[
    "mass" := "bg-gray-100 text-gray-800 border-gray-300",
    "mass_affluent" := "bg-blue-100 text-blue-800 border-blue-300",
    "affluent" := "bg-purple-100 text-purple-800 border-purple-300",
    "high_net_worth" := "bg-amber-100 text-amber-800 border-amber-300"]

  const SavingsIcon := "\U{1F4B0}"

  const AccountIcons: map<string, string> := map[
    "savings" := SavingsIcon,
    "current" := "\U{1F4B3}",
    "deposit" := "\U{1F3E6}",
    "payroll" := "\U{1F4BC}"]

  const StatusColors: map<string, string> := map[
    "active" := "text-green-600 bg-green-50",
    "inactive" := "text-gray-600 bg-gray-50",
    "closed" := "text-red-600 bg-red-50",
    "blocked" := "text-red-600 bg-red-50",
    "overdue" := "text-orange-600 bg-orange-50",
    "current" := "text-green-600 bg-green-50"]

  /** The property name JavaScript uses for a lookup key; undefined becomes "undefined". */
  function PropertyKey(key: Option<string>): string {
    key.GetOr("undefined")
  }

  /** `table[key] || fallback` exactly as JavaScript evaluates it on an object
      literal: inherited Object.prototype members are truthy and are returned. */
  function LookupAsWritten(table: map<string, string>, key: Option<string>, fallback: string): (p: Property)
    ensures PropertyKey(key) in ObjectPrototypeMembers && PropertyKey(key) !in table ==> p == Inherited(PropertyKey(key))
  {
    var v := ReadProperty(table, PropertyKey(key));
    if PropertyTruthy(v) then v else Own(fallback)
  }

  /** `table[key] || fallback` restricted to the table's own entries: the
      lookup the helpers are meant to perform. */
  function Lookup(table: map<string, string>, key: Option<string>, fallback: string): (r: string)
    ensures PropertyKey(key) in table && table[PropertyKey(key)] != "" ==> r == table[PropertyKey(key)]
    ensures PropertyKey(key) !in table ==> r == fallback
  {
    var k := PropertyKey(key);
    if k in table && table[k] != "" then table[k] else fallback
  }

  /** Both lookups agree on every key that is not an Object.prototype member name. */
  lemma LookupAgreesOutsidePrototype(table: map<string, string>, key: Option<string>, fallback: string)
    requires PropertyKey(key) !in ObjectPrototypeMembers
    ensures LookupAsWritten(table, key, fallback) == Own(Lookup(table, key, fallback))
  {
  }

  /** `getSegmentBadgeColor(segment)`: one of the four table entries; unknown or
      missing segments get the `mass` styling. */
  function GetSegmentBadgeColor(segment: Option<string>): (r: string)
    ensures r in SegmentColors.Values && r != ""
    ensures segment.Some? && segment.value in SegmentColors ==> r == SegmentColors[segment.value]
    ensures !(segment.Some? && segment.value in SegmentColors) ==> r == SegmentColors["mass"]
  {
    Lookup(SegmentColors, segment, SegmentColors["mass"])
  }

  /** `getAccountTypeIcon(type)`: the glyph of a known type, the savings glyph otherwise. */
  function GetAccountTypeIcon(accountType: Option<string>): (r: string)
    ensures r in AccountIcons.Values && r != ""
    ensures accountType.Some? && accountType.value in AccountIcons ==> r == AccountIcons[accountType.value]
    ensures !(accountType.Some? && accountType.value in AccountIcons) ==> r == AccountIcons["savings"]
  {
    assert AccountIcons["savings"] == SavingsIcon;
    Lookup(AccountIcons, accountType, SavingsIcon)
  }

  /** `getProductStatusColor(status)`: the styling of a known status, the
      `inactive` styling otherwise. */
  function GetProductStatusColor(status: Option<string>): (r: string)
    ensures r in StatusColors.Values && r != ""
    ensures status.Some? && status.value in StatusColors ==> r == StatusColors[status.value]
    ensures !(status.Some? && status.value in StatusColors) ==> r == StatusColors["inactive"]
  {
    Lookup(StatusColors, status, StatusColors["inactive"])
  }

  /** Any segment outside the table is styled exactly like `mass`. */
  lemma UnknownSegmentIsMass(segment: Option<string>)
    requires segment.None? || segment.value !in SegmentColors
    ensures GetSegmentBadgeColor(segment) == GetSegmentBadgeColor(Some("mass"))
  {
  }

  /** `closed` and `blocked` share the red styling, `active` and `current` the green one,
      and any status outside the table is styled like `inactive`. */
  lemma StatusColorClasses(status: Option<string>)
    ensures GetProductStatusColor(Some("closed")) == GetProductStatusColor(Some("blocked")) == "text-red-600 bg-red-50"
    ensures GetProductStatusColor(Some("active")) == GetProductStatusColor(Some("current")) == "text-green-600 bg-green-50"
    ensures status.None? || status.value !in StatusColors ==>
              GetProductStatusColor(status) == GetProductStatusColor(Some("inactive"))
  {
  }

  /** Any account type outside the table gets the savings glyph. */
  lemma UnknownAccountTypeIsSavings(accountType: Option<string>)
    requires accountType.None? || accountType.value !in AccountIcons
    ensures GetAccountTypeIcon(accountType) == GetAccountTypeIcon(Some("savings")) == SavingsIcon
  {
  }

  // ----- As written: inherited property names escape the fallback -----

  /** `colors[segment] || colors.mass` as JavaScript evaluates it: the intended
      styling, except that an Object.prototype member name yields that member. */
  function SegmentBadgeColorAsWritten(segment: Option<string>): (p: Property)
    ensures PropertyKey(segment) !in ObjectPrototypeMembers ==> p == Own(GetSegmentBadgeColor(segment))
    ensures PropertyKey(segment) in ObjectPrototypeMembers ==> p == Inherited(PropertyKey(segment))
  {
    LookupAsWritten(SegmentColors, segment, SegmentColors["mass"])
  }

  /** `icons[type] || '\U{1F4B0}'` as JavaScript evaluates it. */
  function AccountTypeIconAsWritten(accountType: Option<string>): (p: Property)
    ensures PropertyKey(accountType) !in ObjectPrototypeMembers ==> p == Own(GetAccountTypeIcon(accountType))
    ensures PropertyKey(accountType) in ObjectPrototypeMembers ==> p == Inherited(PropertyKey(accountType))
  {
    LookupAsWritten(AccountIcons, accountType, SavingsIcon)
  }

  /** `colors[status] || colors.inactive` as JavaScript evaluates it. */
  function ProductStatusColorAsWritten(status: Option<string>): (p: Property)
    ensures PropertyKey(status) !in ObjectPrototypeMembers ==> p == Own(GetProductStatusColor(status))
    ensures PropertyKey(status) in ObjectPrototypeMembers ==> p == Inherited(PropertyKey(status))
  {
    LookupAsWritten(StatusColors, status, StatusColors["inactive"])
  }

  /** A segment named "toString" yields Object.prototype.toString, not a style string,
      while the intended lookup gives the `mass` styling. */
  lemma SegmentColorInheritedKey()
    ensures SegmentBadgeColorAsWritten(Some("toString")) == Inherited("toString")
    ensures GetSegmentBadgeColor(Some("toString")) == SegmentColors["mass"]
  {
  }

  /** An account type named "constructor" yields the Object constructor, not a glyph. */
  lemma AccountIconInheritedKey()
    ensures AccountTypeIconAsWritten(Some("constructor")) == Inherited("constructor")
    ensures GetAccountTypeIcon(Some("constructor")) == SavingsIcon
  {
  }

  /** A status named "valueOf" yields Object.prototype.valueOf, not a style string. */
  lemma StatusColorInheritedKey()
    ensures ProductStatusColorAsWritten(Some("valueOf")) == Inherited("valueOf")
    ensures GetProductStatusColor(Some("valueOf")) == StatusColors["inactive"]
  {
  }
}
