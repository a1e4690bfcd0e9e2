/**
 * The number picker of `TicketSelector.tsx`: the grid of numbers offered, the
 * selection a click toggles, the zero-padded labels, and the state change a
 * reservation makes, with the server's answer passed in.
 */
module Selector {
  import opened Wrappers
  import Text

  /** The largest grid the page draws, whatever the raffle's size. */
  const MaxShown: int := 500

  /** What the page sends to the reservation endpoint. */
  datatype ReserveRequest = ReserveRequest(raffleId: nat, numbers: seq<int>, clientName: string, clientPhone: string)

  /** How the reservation call ends: an ok answer, an error answer with its message, or no usable answer at all. */
  datatype ReserveResponse = Accepted | Rejected(message: Option<string>) | Unreachable

  predicate Distinct(s: seq<int>) { forall i, j :: 0 <= i < j < |s| ==> s[i] != s[j] }

  function Min(a: int, b: int): int { if a < b then a else b }

  /** `s.filter(n => n !== x)`. */
  function Without(s: seq<int>, x: int): (r: seq<int>)
    ensures forall y :: y in r <==> y in s && y != x
    ensures |r| <= |s|
  {
    if s == [] then [] else (if s[0] == x then [] else [s[0]]) + Without(s[1..], x)
  }

  /** `filter` works piece by piece, and a single element stays exactly when it is not `x`, so the kept elements keep their order. */
  lemma {:induction false} WithoutAppend(a: seq<int>, b: seq<int>, x: int)
    ensures Without(a + b, x) == Without(a, x) + Without(b, x)
  {
    if a == [] {
      assert a + b == b && Without(a, x) == [];
    } else {
      var h := if a[0] != x then [a[0]] else [];
      calc {
        Without(a + b, x);
        == { assert (a + b)[1..] == a[1..] + b && (a + b)[0] == a[0]; }
        h + Without(a[1..] + b, x);
        == { WithoutAppend(a[1..], b, x); }
        h + (Without(a[1..], x) + Without(b, x));
        ==
        (h + Without(a[1..], x)) + Without(b, x);
        ==
        Without(a, x) + Without(b, x);
      }
    }
  }

  /** A single element survives the filter exactly when it is not `x`. */
  lemma WithoutSingle(y: int, x: int)
    ensures Without([y], x) == if y == x then [] else [y]
  {
    assert [y][1..] == [];
  }

  /** `toggleNumber`: a selected number leaves the selection, any other joins it at the end. */
  function Toggle(selected: seq<int>, n: int): (r: seq<int>)
    ensures n in selected ==> forall y :: y in r <==> y in selected && y != n
    ensures n in selected ==> r == Without(selected, n)
    ensures n !in selected ==> r == selected + [n]
  {
    if n in selected then Without(selected, n) else selected + [n]
  }

  /** Removing a value keeps the other values distinct, in their order. */
  lemma {:induction false} WithoutKeepsDistinct(s: seq<int>, x: int)
    requires Distinct(s)
    ensures Distinct(Without(s, x))
  {
    if s != [] {
      WithoutKeepsDistinct(s[1..], x);
      var rest := Without(s[1..], x);
      forall y | y in rest ensures y != s[0] {
        var k :| 0 <= k < |s[1..]| && s[1..][k] == y;
        assert s[k + 1] == y;
      }
      var r := Without(s, x);
      if s[0] != x {
        forall i, j | 0 <= i < j < |r| ensures r[i] != r[j] {
          assert r[j] == rest[j - 1] && rest[j - 1] in rest;
          if i > 0 { assert r[i] == rest[i - 1]; }
        }
      }
    }
  }

  /** Removing a value that is not there changes nothing. */
  lemma {:induction false} WithoutAbsent(s: seq<int>, x: int)
    requires x !in s
    ensures Without(s, x) == s
  {
    if s != [] {
      WithoutAbsent(s[1..], x);
      assert [s[0]] + s[1..] == s;
    }
  }

  /** Toggling keeps the selection free of repeats. */
  lemma ToggleKeepsDistinct(selected: seq<int>, n: int)
    requires Distinct(selected)
    ensures Distinct(Toggle(selected, n))
  {
    if n in selected {
      WithoutKeepsDistinct(selected, n);
    }
  }

  /** Toggling an unselected number twice restores the selection. */
  lemma ToggleTwice(selected: seq<int>, n: int)
    requires n !in selected
    ensures Toggle(Toggle(selected, n), n) == selected
  {
    WithoutLast(selected, n);
  }

  /** Removing a value that was appended to a list without it gives the list back. */
  lemma {:induction false} WithoutLast(s: seq<int>, x: int)
    requires x !in s
    ensures Without(s + [x], x) == s
  {
    if s == [] {
    } else {
      assert (s + [x])[1..] == s[1..] + [x];
      WithoutLast(s[1..], x);
      assert [s[0]] + s[1..] == s;
    }
  }

  /** The numbers the grid offers: `0 .. min(totalTickets, 500) - 1`, ascending; none for a non-positive size. */
  function Grid(totalTickets: int): (r: seq<int>)
    ensures |r| == if totalTickets <= 0 then 0 else Min(totalTickets, MaxShown)
    ensures forall i :: 0 <= i < |r| ==> r[i] == i
    ensures forall x :: x in r <==> 0 <= x < Min(totalTickets, MaxShown)
  {
    var count := if totalTickets <= 0 then 0 else Min(totalTickets, MaxShown);
    var r := seq(count, i requires 0 <= i < count => i);
    assert forall x :: 0 <= x < count ==> x in r by {
      forall x | 0 <= x < count ensures x in r {
        assert r[x] == x;
      }
    }
    assert forall x :: x in r ==> 0 <= x < count by {
      forall x | x in r ensures 0 <= x < count {
        var i :| 0 <= i < |r| && r[i] == x;
      }
    }
    r
  }

  /** The label width: three digits for raffles of more than 99 tickets, two otherwise. */
  function LabelWidth(totalTickets: int): int
  {
    if totalTickets > 99 then 3 else 2
  }

  /** `num.toString().padStart(width, "0")`. */
  function Label(n: nat, totalTickets: int): string
  {
    Text.PadStart(Text.NatToString(n), LabelWidth(totalTickets), '0')
  }

  /** Every label on the grid has exactly the label width and reads back as its number. */
  lemma GridLabels(totalTickets: int, n: int)
    requires n in Grid(totalTickets)
    ensures n >= 0
    ensures |Label(n, totalTickets)| == LabelWidth(totalTickets)
    ensures Text.AllDigits(Label(n, totalTickets)) && Text.DigitsValue(Label(n, totalTickets)) == n
  {
    Text.NatToStringShort(n);
    Text.PadStartValue(n, LabelWidth(totalTickets));
  }

  /** The component's state; `totalTickets`, `ticketPrice` and the raffle's identifier come from its props. */
  class TicketSelector {
    const raffleId: nat
    const totalTickets: int
    const ticketPrice: int
    var selectedNumbers: seq<int>
    var occupiedNumbers: seq<int>
    var clientName: string
    var clientPhone: string
    var loading: bool
    var showPaymentModal: bool
    var lastReservedNumbers: seq<int>
    var lastTotal: int

    constructor (raffleId: nat, totalTickets: int, ticketPrice: int)
      ensures this.raffleId == raffleId && this.totalTickets == totalTickets && this.ticketPrice == ticketPrice
      ensures selectedNumbers == [] && occupiedNumbers == [] && clientName == [] && clientPhone == []
      ensures !loading && !showPaymentModal && lastReservedNumbers == [] && lastTotal == 0
    {
      this.raffleId, this.totalTickets, this.ticketPrice := raffleId, totalTickets, ticketPrice;
      selectedNumbers, occupiedNumbers, clientName, clientPhone := [], [], [], [];
      loading, showPaymentModal, lastReservedNumbers, lastTotal := false, false, [], 0;
    }

    /** `fetchOccupied`: an ok answer replaces the occupied numbers; anything else leaves them. */
    method LoadOccupied(answer: Option<seq<int>>)
      modifies this
      ensures occupiedNumbers == if answer.Some? then answer.value else old(occupiedNumbers)
      ensures selectedNumbers == old(selectedNumbers) && clientName == old(clientName) && clientPhone == old(clientPhone)
      ensures loading == old(loading) && showPaymentModal == old(showPaymentModal)
      ensures lastReservedNumbers == old(lastReservedNumbers) && lastTotal == old(lastTotal)
    {
      if answer.Some? {
        occupiedNumbers := answer.value;
      }
    }

    /** `toggleNumber`. */
    method ToggleNumber(n: int)
      modifies this
      ensures selectedNumbers == Toggle(old(selectedNumbers), n)
      ensures occupiedNumbers == old(occupiedNumbers) && clientName == old(clientName) && clientPhone == old(clientPhone)
      ensures loading == old(loading) && showPaymentModal == old(showPaymentModal)
      ensures lastReservedNumbers == old(lastReservedNumbers) && lastTotal == old(lastTotal)
    {
      if n in selectedNumbers {
        selectedNumbers := Without(selectedNumbers, n);
      } else {
        selectedNumbers := selectedNumbers + [n];
      }
    }

    /**
     * `handleReserve`: nothing without a selection; otherwise the request
     * built from the selection and the form, then, on an ok answer, the
     * payment summary, the selection added to the occupied numbers and a
     * cleared form; on any other answer an alert and nothing else changed.
     */
    method HandleReserve(response: ReserveResponse) returns (request: Option<ReserveRequest>, alert: Option<string>)
      modifies this
      ensures old(selectedNumbers) == [] ==>
        && request.None? && alert.None?
        && selectedNumbers == old(selectedNumbers) && occupiedNumbers == old(occupiedNumbers)
        && clientName == old(clientName) && clientPhone == old(clientPhone)
        && loading == old(loading) && showPaymentModal == old(showPaymentModal)
        && lastReservedNumbers == old(lastReservedNumbers) && lastTotal == old(lastTotal)
      ensures old(selectedNumbers) != [] ==>
        && request == Some(ReserveRequest(raffleId, old(selectedNumbers), old(clientName), old(clientPhone)))
        && !loading
      ensures old(selectedNumbers) != [] && response.Accepted? ==>
        && alert.None?
        && lastReservedNumbers == old(selectedNumbers)
        && lastTotal == |old(selectedNumbers)| * ticketPrice
        && occupiedNumbers == old(occupiedNumbers) + old(selectedNumbers)
        && selectedNumbers == [] && clientName == [] && clientPhone == []
        && showPaymentModal
      ensures old(selectedNumbers) != [] && !response.Accepted? ==>
        && alert == Some(if response.Rejected? then
                           "Error: " + (if response.message.Some? && response.message.value != [] then response.message.value
                                        else "No se pudo reservar")
                         else "Error de conexión con el servidor")
        && selectedNumbers == old(selectedNumbers) && occupiedNumbers == old(occupiedNumbers)
        && clientName == old(clientName) && clientPhone == old(clientPhone)
        && showPaymentModal == old(showPaymentModal)
        && lastReservedNumbers == old(lastReservedNumbers) && lastTotal == old(lastTotal)
    {
      if selectedNumbers == [] {
        return None, None;
      }
      loading := true;
      request := Some(ReserveRequest(raffleId, selectedNumbers, clientName, clientPhone));
      alert := None;
      match response {
        case Rejected(message) =>
          var text := if message.Some? && message.value != [] then message.value else "No se pudo reservar";
          alert := Some("Error: " + text);
        case Accepted =>
          var total := |selectedNumbers| * ticketPrice;
          lastReservedNumbers := selectedNumbers;
          lastTotal := total;
          occupiedNumbers := occupiedNumbers + selectedNumbers;
          selectedNumbers := [];
          clientName := [];
          clientPhone := [];
          showPaymentModal := true;
        case Unreachable =>
          alert := Some("Error de conexión con el servidor");
      }
      loading := false;
    }

    /** `closeModal`. */
    method CloseModal()
      modifies this
      ensures !showPaymentModal
      ensures selectedNumbers == old(selectedNumbers) && occupiedNumbers == old(occupiedNumbers)
      ensures clientName == old(clientName) && clientPhone == old(clientPhone) && loading == old(loading)
      ensures lastReservedNumbers == old(lastReservedNumbers) && lastTotal == old(lastTotal)
    {
      showPaymentModal := false;
    }
  }
}
