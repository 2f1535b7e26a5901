/** The search flow of the dashboard page (`App` in src/App.jsx): the input
    field, `handleSearch` with its four outcomes, and the customer pills.
    The HTTP POST is not modelled: its result is a value of type Outcome,
    produced by a `server` function of the identifiers sent. */
module Search {
  import opened Wrappers
  import opened JsString
  import opened Profile

  const EmptyInputError := "Please enter at least one customer ID"
  const NotFoundError := "No customers found"
  const FetchFailedError := "Failed to fetch customer data"

  // ----- Parsing the identifier input -----

  /** `pieces.map(id => id.trim())`. */
  function TrimEach(pieces: seq<string>): (r: seq<string>)
    ensures |r| == |pieces|
  {
    if pieces == [] then [] else [Trim(pieces[0])] + TrimEach(pieces[1..])
  }

  lemma {:induction false} TrimEachAt(pieces: seq<string>, k: nat)
    requires k < |pieces|
    ensures TrimEach(pieces)[k] == Trim(pieces[k])
  {
    if k > 0 { TrimEachAt(pieces[1..], k - 1); }
  }

  lemma {:induction false} TrimEachAppend(a: seq<string>, b: seq<string>)
    ensures TrimEach(a + b) == TrimEach(a) + TrimEach(b)
  {
    if a == [] {
      assert a + b == b;
    } else {
      assert (a + b)[0] == a[0];
      assert (a + b)[1..] == a[1..] + b;
      TrimEachAppend(a[1..], b);
    }
  }

  /** `xs.filter(id => id)`: the empty strings are dropped, the rest kept in order. */
  function DropEmpty(xs: seq<string>): (r: seq<string>)
    ensures |r| <= |xs|
    ensures forall k :: 0 <= k < |r| ==> r[k] != ""
  {
    if xs == [] then [] else (if xs[0] == "" then [] else [xs[0]]) + DropEmpty(xs[1..])
  }

  /** Every kept string comes from the input. */
  lemma {:induction false} DropEmptyKeeps(xs: seq<string>, k: nat)
    requires k < |DropEmpty(xs)|
    ensures DropEmpty(xs)[k] in xs
  {
    var head := if xs[0] == "" then [] else [xs[0]];
    if k >= |head| {
      DropEmptyKeeps(xs[1..], k - |head|);
      assert DropEmpty(xs)[k] == DropEmpty(xs[1..])[k - |head|];
    }
  }

  /** What every parsed identifier looks like. */
  predicate WellFormedId(id: string) {
    id != "" && ',' !in id && !IsWhiteSpace(id[0]) && !IsWhiteSpace(id[|id| - 1])
  }

  /** `customerIds.split(',').map(id => id.trim()).filter(id => id)`. */
  function ParseIds(input: string): (ids: seq<string>)
    ensures forall k :: 0 <= k < |ids| ==> WellFormedId(ids[k])
    ensures |ids| <= Count(input, ',') + 1
  {
    var pieces := Split(input, ',');
    var trimmed := TrimEach(pieces);
    var ids := DropEmpty(trimmed);
    SplitCount(input, ',');
    forall k | 0 <= k < |ids| ensures WellFormedId(ids[k]) {
      DropEmptyKeeps(trimmed, k);
      var j :| 0 <= j < |trimmed| && trimmed[j] == ids[k];
      TrimEachAt(pieces, j);
      SplitPiecesLackSeparator(input, ',');
      TrimAddsNothing(pieces[j], ',');
    }
    ids
  }

  lemma {:induction false} DropEmptyAppend(a: seq<string>, b: seq<string>)
    ensures DropEmpty(a + b) == DropEmpty(a) + DropEmpty(b)
  {
    if a == [] {
      assert a + b == b;
    } else {
      var c := a + b;
      assert c[0] == a[0];
      assert c[1..] == a[1..] + b;
      DropEmptyAppend(a[1..], b);
      var head := if a[0] == "" then [] else [a[0]];
      assert DropEmpty(c) == head + DropEmpty(c[1..]);
      assert DropEmpty(a) == head + DropEmpty(a[1..]);
    }
  }

  /** The filter keeps every non-empty string: a list without empty strings passes unchanged. */
  lemma {:induction false} DropEmptyOfNonEmpty(xs: seq<string>)
    requires forall k :: 0 <= k < |xs| ==> xs[k] != ""
    ensures DropEmpty(xs) == xs
  {
    if xs != [] {
      DropEmptyOfNonEmpty(xs[1..]);
      HeadTail(xs);
    }
  }

  /** A comma in the input separates the identifiers before it from those after
      it: parsing keeps the order of the input. */
  lemma ParseIdsAround(a: string, b: string)
    ensures ParseIds(a + "," + b) == ParseIds(a) + ParseIds(b)
  {
    SplitAround(a, b, ',');
    var pa, pb := Split(a, ','), Split(b, ',');
    TrimEachAppend(pa, pb);
    DropEmptyAppend(TrimEach(pa), TrimEach(pb));
  }

  /** A comma-free input is one identifier, its trimmed text, unless that is empty. */
  lemma ParseIdsPiece(piece: string)
    requires ',' !in piece
    ensures ParseIds(piece) == if Trim(piece) == "" then [] else [Trim(piece)]
  {
    SplitWithoutSeparator(piece, ',');
    assert TrimEach([piece]) == [Trim(piece)];
    assert DropEmpty([Trim(piece)])
      == (if Trim(piece) == "" then [] else [Trim(piece)]) + DropEmpty([]);
  }

  lemma {:induction false} DropEmptyOfBlanks(xs: seq<string>)
    requires forall k :: 0 <= k < |xs| ==> xs[k] == ""
    ensures DropEmpty(xs) == []
  {
    if xs != [] {
      DropEmptyOfBlanks(xs[1..]);
    }
  }

  /** An input that the guard rejects (blank after trimming) has no identifiers. */
  lemma BlankInputHasNoIds(input: string)
    requires Trim(input) == ""
    ensures ParseIds(input) == []
  {
    var pieces := Split(input, ',');
    TrimEmptyIff(input);
    SplitWhiteSpace(input, ',');
    forall k | 0 <= k < |pieces| ensures TrimEach(pieces)[k] == "" {
      TrimEachAt(pieces, k);
      TrimEmptyIff(pieces[k]);
    }
    DropEmptyOfBlanks(TrimEach(pieces));
  }

  /** The converse fails: " , " passes the guard (its trim is not empty) and
      yet parses to no identifiers, so an empty list is sent. */
  lemma GuardAdmitsEmptyIdList(input: string)
    requires input == " , "
    ensures Trim(input) != ""
    ensures ParseIds(input) == []
  {
    assert input == " " + "," + " ";
    assert !IsWhiteSpace(input[1]);
    TrimEmptyIff(input);
    ParseIdsAround(" ", " ");
    ParseIdsPiece(" ");
    TrimEmptyIff(" ");
  }

  /** Well-formed identifiers joined by commas parse back to the same list:
      nothing is lost, added or reordered. */
  lemma {:induction false} ParseIdsOfJoin(ids: seq<string>)
    requires forall k :: 0 <= k < |ids| ==> WellFormedId(ids[k])
    ensures ParseIds(Join(ids, ',')) == ids
  {
    if ids == [] {
      ParseIdsPiece("");
    } else {
      ParseIdsPiece(ids[0]);
      TrimKeepsClean(ids[0]);
      if |ids| > 1 {
        ParseIdsOfJoin(ids[1..]);
        ParseIdsAround(ids[0], Join(ids[1..], ','));
        HeadTail(ids);
      }
    }
  }

  /** Two identifiers typed as "A, B" (a space after the comma) parse to [A, B], in order. */
  lemma ParseIdsSpacedPair(a: string, b: string)
    requires WellFormedId(a) && WellFormedId(b)
    ensures ParseIds(a + ", " + b) == [a, b]
  {
    var spaced := " " + b;
    assert a + ", " + b == a + "," + spaced;
    ParseIdsAround(a, spaced);
    ParseIdsPiece(a);
    ParseIdsPiece(spaced);
    TrimKeepsClean(a);
    assert spaced[1..] == b;
    TrimSkipsLeading(spaced);
    TrimKeepsClean(b);
  }

  // ----- The server's answer -----

  /** The JSON body of a completed POST: `success` and `data` (which may be absent). */
  datatype ResponseBody = ResponseBody(success: bool, data: Option<seq<Customer>>)

  /** What awaiting the POST gives: a body, or an exception that may carry the
      server's `response.data.message`. */
  datatype Outcome = Responded(body: ResponseBody) | Threw(serverMessage: Option<string>)

  /** `err.response?.data?.message || 'Failed to fetch customer data'`. */
  function ErrorMessage(serverMessage: Option<string>): (m: string)
    ensures m != ""
    ensures serverMessage.Some? && serverMessage.value != "" ==> m == serverMessage.value
    ensures serverMessage.None? || serverMessage == Some("") ==> m == FetchFailedError
  {
    if serverMessage.Some? && serverMessage.value != "" then serverMessage.value else FetchFailedError
  }

  /** The page's invariant: no result and no selection, or the selection is one of the results. */
  predicate SelectionConsistent(customers: seq<Customer>, selected: Option<Customer>) {
    (customers == [] && selected.None?) || (selected.Some? && selected.value in customers)
  }

  /** The state a completed request leaves behind. */
  datatype Settled = Settled(customers: seq<Customer>, selected: Option<Customer>, error: Option<string>)

  /** Lines 38-49 of `handleSearch`: success with data selects the first record;
      any other body is "No customers found"; an exception shows the server's
      message or the generic one. A success body without `data` makes reading
      `data.length` throw a TypeError, which has no `response`: the generic message. */
  function Settle(outcome: Outcome): (s: Settled)
    ensures s.error.None? <==>
              outcome.Responded? && outcome.body.success && outcome.body.data.Some? && outcome.body.data.value != []
    ensures s.error.None? ==>
              s.customers == outcome.body.data.value && s.selected == Some(outcome.body.data.value[0])
    ensures s.error.Some? ==> s.customers == [] && s.selected.None? && s.error.value != ""
    ensures outcome.Responded? && (!outcome.body.success || outcome.body.data == Some([])) ==>
              s.error == Some(NotFoundError)
    ensures outcome.Responded? && outcome.body.success && outcome.body.data.None? ==>
              s.error == Some(FetchFailedError)
    ensures outcome.Threw? ==> s.error == Some(ErrorMessage(outcome.serverMessage))
    ensures SelectionConsistent(s.customers, s.selected)
  {
    match outcome
    case Responded(body) =>
      if !body.success then Settled([], None, Some(NotFoundError))
      else if body.data.None? then Settled([], None, Some(FetchFailedError))
      else if |body.data.value| > 0 then Settled(body.data.value, Some(body.data.value[0]), None)
      else Settled([], None, Some(NotFoundError))
    case Threw(message) => Settled([], None, Some(ErrorMessage(message)))
  }

  /** The pill of `c` is highlighted when the selection has the same `customer_id`. */
  predicate Highlighted(selected: Option<Customer>, c: Customer): (b: bool)
    ensures selected == Some(c) ==> b
    ensures selected.None? ==> !b
  {
    selected.Some? && selected.value.customerId == c.customerId
  }

  predicate UniqueIds(customers: seq<Customer>) {
    forall i, j :: 0 <= i < j < |customers| ==> customers[i].customerId != customers[j].customerId
  }

  /** With unique identifiers and a consistent selection, exactly the selected
      customer's pill is highlighted. */
  lemma ExactlySelectedPillHighlighted(customers: seq<Customer>, selected: Option<Customer>, k: nat)
    requires UniqueIds(customers) && SelectionConsistent(customers, selected)
    requires k < |customers|
    ensures Highlighted(selected, customers[k]) <==> selected == Some(customers[k])
  {
    if Highlighted(selected, customers[k]) {
      var j :| 0 <= j < |customers| && customers[j] == selected.value;
      assert customers[j].customerId == customers[k].customerId;
      assert j == k;
    }
  }

  // ----- The page state -----

  /** The `useState` fields of `App`. */
  class App {
    var customerIds: string
    var loading: bool
    var customers: seq<Customer>
    var error: Option<string>
    var selectedCustomer: Option<Customer>

    ghost predicate Valid()
      reads this
    {
      SelectionConsistent(customers, selectedCustomer)
    }

    /** The initial state: empty input, not loading, no results, no error, no selection. */
    constructor ()
      ensures Valid()
      ensures customerIds == "" && !loading && customers == [] && error.None? && selectedCustomer.None?
    {
      customerIds := "";
      loading := false;
      customers := [];
      error := None;
      selectedCustomer := None;
    }

    /** Typing in the input field (`onChange`). */
    method SetCustomerIds(value: string)
      requires Valid()
      modifies this`customerIds
      ensures Valid()
      ensures customerIds == value
    {
      customerIds := value;
    }

    /** Lines 24-33 of `handleSearch`, up to sending the request: a blank input
        only sets the validation error; otherwise `loading` is set, the error
        cleared, and the parsed identifiers are returned as the request. */
    method StartSearch() returns (request: Option<seq<string>>)
      requires Valid()
      modifies this`loading, this`error
      ensures Valid()
      ensures request.None? <==> Trim(customerIds) == ""
      ensures request.None? ==> error == Some(EmptyInputError) && loading == old(loading)
      ensures request.Some? ==> request.value == ParseIds(customerIds) && loading && error.None?
    {
      if Trim(customerIds) == "" {
        error := Some(EmptyInputError);
        assert SelectionConsistent(customers, selectedCustomer);
        return None;
      }
      loading := true;
      error := None;
      request := Some(ParseIds(customerIds));
      assert SelectionConsistent(customers, selectedCustomer);
    }

    /** Lines 38-52 of `handleSearch`, once the request has completed: the
        outcome settles the results, the selection and the error, and `finally`
        clears `loading`. */
    method FinishSearch(outcome: Outcome)
      requires Valid()
      modifies this`loading, this`error, this`customers, this`selectedCustomer
      ensures Valid()
      ensures !loading
      ensures customers == Settle(outcome).customers
      ensures selectedCustomer == Settle(outcome).selected
      ensures error == (if Settle(outcome).error.Some? then Settle(outcome).error else old(error))
    {
      match outcome {
        case Responded(body) =>
          if body.success && body.data.Some? && |body.data.value| > 0 {
            customers := body.data.value;
            selectedCustomer := Some(body.data.value[0]);
          } else if body.success && body.data.None? {
            error := Some(FetchFailedError);
            customers := [];
            selectedCustomer := None;
          } else {
            error := Some(NotFoundError);
            customers := [];
            selectedCustomer := None;
          }
        case Threw(message) =>
          error := Some(ErrorMessage(message));
          customers := [];
          selectedCustomer := None;
      }
      loading := false;
    }

    /** `handleSearch` as one atomic step, with `server` answering the request. */
    method HandleSearch(server: seq<string> -> Outcome) returns (request: Option<seq<string>>)
      requires Valid()
      modifies this`loading, this`error, this`customers, this`selectedCustomer
      ensures Valid()
      ensures request.None? <==> Trim(customerIds) == ""
      ensures request.None? ==>
                error == Some(EmptyInputError) && loading == old(loading)
                && customers == old(customers) && selectedCustomer == old(selectedCustomer)
      ensures request.Some? ==>
                request.value == ParseIds(customerIds) && !loading
                && customers == Settle(server(request.value)).customers
                && selectedCustomer == Settle(server(request.value)).selected
                && error == Settle(server(request.value)).error
    {
      request := StartSearch();
      if request.Some? {
        FinishSearch(server(request.value));
      }
    }

    /** Clicking a customer's pill selects that customer. */
    method SelectCustomer(c: Customer)
      requires Valid()
      requires c in customers
      modifies this`selectedCustomer
      ensures Valid()
      ensures selectedCustomer == Some(c)
    {
      selectedCustomer := Some(c);
    }
  }
}
