/**
 * The checkout page of `checkout/page.tsx`: loading the cart the browser kept,
 * submitting the bulk reservation, and the confirmation it composes (the
 * total and the `#NNN` list of tickets). Browser storage is two fields of the
 * page; the server's answer is passed in.
 */
module Checkout {
  import opened Wrappers
  import Sorting
  import Text

  /** The raffle as the cart stores it. */
  datatype CartRaffle = CartRaffle(id: nat, name: string, ticketPrice: int)

  /** The body of the bulk reservation request. */
  datatype BulkBody = BulkBody(raffleId: nat, clientName: string, clientPhone: string, clientState: string, ticketNumbers: seq<int>)

  /** How the request ends: an ok answer, an error answer with its message, or a failure with the error's own message. */
  datatype BulkResponse = Accepted | Rejected(message: Option<string>) | Failed(error: string)

  /** What the confirmation message reports. */
  datatype Summary = Summary(ticketString: string, total: int)

  const StateMissing: string := "Por favor selecciona tu estado de residencia"

  function Identity(n: int): int { n }

  /** `.sort((a, b) => a - b)`: ascending, the same numbers. */
  function SortAscending(s: seq<int>): (r: seq<int>)
    ensures forall i, j :: 0 <= i < j < |r| ==> r[i] <= r[j]
    ensures multiset(r) == multiset(s)
  {
    var r := Sorting.SortBy(s, Identity);
    assert forall i, j :: 0 <= i < j < |r| ==> Identity(r[i]) <= Identity(r[j]);
    r
  }

  /** `#` and the number padded with zeros to three characters. */
  function TicketLabel(t: int): string
  {
    "#" + Text.PadStart(Text.IntToString(t), 3, '0')
  }

  /** The ticket list of the confirmation: the labels joined by `, `. */
  function TicketString(tickets: seq<int>): string
  {
    Text.Join(Labels(tickets), ", ")
  }

  function Labels(tickets: seq<int>): (r: seq<string>)
    ensures |r| == |tickets|
    ensures forall k :: 0 <= k < |r| ==> r[k] == TicketLabel(tickets[k])
  {
    if tickets == [] then [] else [TicketLabel(tickets[0])] + Labels(tickets[1..])
  }

  /** The number a label denotes: a `#` and decimal digits. */
  function ParseLabel(piece: string): Option<nat>
  {
    if |piece| >= 2 && piece[0] == '#' && Text.AllDigits(piece[1..]) then Some(Text.DigitsValue(piece[1..])) else None
  }

  /** The numbers of a ticket list, read back: split at commas, drop the space after each comma. */
  function ParseTicketString(s: string): seq<Option<nat>>
  {
    var pieces := Text.Split(s, ',');
    seq(|pieces|, k requires 0 <= k < |pieces| =>
      ParseLabel(if k > 0 && |pieces[k]| > 0 && pieces[k][0] == ' ' then pieces[k][1..] else pieces[k]))
  }

  /** A label of a non-negative number holds no comma and reads back as the number. */
  lemma LabelRoundTrip(t: nat)
    ensures ',' !in TicketLabel(t)
    ensures ParseLabel(TicketLabel(t)) == Some(t)
    ensures |TicketLabel(t)| >= 4
  {
    var digits := Text.PadStart(Text.NatToString(t), 3, '0');
    assert Text.IntToString(t) == Text.NatToString(t);
    Text.PadStartValue(t, 3);
    assert TicketLabel(t) == "#" + digits;
    assert ("#" + digits)[1..] == digits;
    assert ',' !in digits by {
      forall i | 0 <= i < |digits| ensures digits[i] != ',' {
        assert Text.IsDigit(digits[i]);
      }
    }
  }

  /** Each piece of the split ticket list reads back as its ticket. */
  lemma PieceRoundTrip(tickets: seq<int>, k: nat)
    requires k < |tickets| && tickets[k] >= 0
    requires |Text.Split(TicketString(tickets), ',')| == |tickets|
    requires k == 0 ==> Text.Split(TicketString(tickets), ',')[k] == TicketLabel(tickets[k])
    requires k > 0 ==> Text.Split(TicketString(tickets), ',')[k] == " " + TicketLabel(tickets[k])
    ensures ParseTicketString(TicketString(tickets))[k] == Some(tickets[k] as nat)
  {
    LabelRoundTrip(tickets[k]);
    var piece := Text.Split(TicketString(tickets), ',')[k];
    if k > 0 {
      assert piece[1..] == TicketLabel(tickets[k]);
    }
  }

  /** Splitting the ticket list at commas gives the labels back, each after the first with its leading space. */
  lemma SplitTicketString(tickets: seq<int>)
    requires tickets != []
    requires forall k :: 0 <= k < |tickets| ==> tickets[k] >= 0
    ensures |Text.Split(TicketString(tickets), ',')| == |tickets|
    ensures Text.Split(TicketString(tickets), ',')[0] == TicketLabel(tickets[0])
    ensures forall k :: 1 <= k < |tickets| ==> Text.Split(TicketString(tickets), ',')[k] == " " + TicketLabel(tickets[k])
  {
    var labels := Labels(tickets);
    forall k | 0 <= k < |labels| ensures ',' !in labels[k] {
      LabelRoundTrip(tickets[k]);
    }
    Text.SplitJoin(labels);
  }

  /** Reading the ticket list of non-negative numbers back gives the numbers. */
  lemma TicketStringRoundTrip(tickets: seq<int>)
    requires tickets != []
    requires forall k :: 0 <= k < |tickets| ==> tickets[k] >= 0
    ensures ParseTicketString(TicketString(tickets)) == seq(|tickets|, k requires 0 <= k < |tickets| => Some(tickets[k] as nat))
  {
    SplitTicketString(tickets);
    forall k | 0 <= k < |tickets| ensures ParseTicketString(TicketString(tickets))[k] == Some(tickets[k] as nat) {
      PieceRoundTrip(tickets, k);
    }
  }

  /** A negative number, which the cart does not exclude, keeps its sign inside the padding. */
  lemma NegativeLabel()
    ensures TicketLabel(-5) == "#0-5"
  {
    assert Text.NatToString(5) == "5";
    assert Text.IntToString(-5) == "-5";
  }

  class CheckoutPage {
    /** The two browser-storage keys, already parsed; `None` when the key is absent. */
    var cartRaffle: Option<CartRaffle>
    var cartTickets: Option<seq<int>>
    /** The page state. */
    var raffle: Option<CartRaffle>
    var tickets: seq<int>
    var name: string
    var phone: string
    var state: string
    var loading: bool
    /** Where the router was sent, if anywhere. */
    var redirect: Option<string>

    constructor (cartRaffle: Option<CartRaffle>, cartTickets: Option<seq<int>>)
      ensures this.cartRaffle == cartRaffle && this.cartTickets == cartTickets
      ensures raffle.None? && tickets == [] && name == [] && phone == [] && state == []
      ensures !loading && redirect.None?
    {
      this.cartRaffle, this.cartTickets := cartRaffle, cartTickets;
      raffle, tickets, name, phone, state := None, [], [], [], [];
      loading, redirect := false, None;
    }

    /** The cart-loading effect: home when either key is missing, otherwise the raffle and its tickets in ascending order. */
    method LoadCart()
      modifies this
      ensures cartRaffle == old(cartRaffle) && cartTickets == old(cartTickets)
      ensures name == old(name) && phone == old(phone) && state == old(state) && loading == old(loading)
      ensures old(cartRaffle).None? || old(cartTickets).None? ==>
        redirect == Some("/") && raffle == old(raffle) && tickets == old(tickets)
      ensures old(cartRaffle).Some? && old(cartTickets).Some? ==>
        && redirect == old(redirect) && raffle == old(cartRaffle)
        && tickets == SortAscending(old(cartTickets).value)
    {
      if cartRaffle.None? || cartTickets.None? {
        redirect := Some("/");
        return;
      }
      raffle := cartRaffle;
      tickets := SortAscending(cartTickets.value);
    }

    /**
     * `handleSubmit`: nothing without a raffle; an error notice and no
     * request without a state; otherwise the bulk request, and on an ok
     * answer the cart is cleared, the summary composed and the page sent to
     * `/verificar`, while on any other answer the error is shown and the cart
     * kept.
     */
    method HandleSubmit(response: BulkResponse) returns (request: Option<BulkBody>, notice: Option<string>, summary: Option<Summary>)
      modifies this
      ensures raffle == old(raffle) && tickets == old(tickets)
      ensures name == old(name) && phone == old(phone) && state == old(state)
      ensures old(raffle).None? ==>
        && request.None? && notice.None? && summary.None?
        && cartRaffle == old(cartRaffle) && cartTickets == old(cartTickets) && loading == old(loading)
        && redirect == old(redirect)
      ensures old(raffle).Some? && old(state) == [] ==>
        && request.None? && notice == Some(StateMissing) && summary.None?
        && cartRaffle == old(cartRaffle) && cartTickets == old(cartTickets) && loading == old(loading)
        && redirect == old(redirect)
      ensures old(raffle).Some? && old(state) != [] ==>
        && request == Some(BulkBody(old(raffle).value.id, old(name), old(phone), old(state), old(tickets)))
        && !loading
      ensures old(raffle).Some? && old(state) != [] && response.Accepted? ==>
        && cartRaffle.None? && cartTickets.None? && notice.None?
        && summary == Some(Summary(TicketString(old(tickets)), |old(tickets)| * old(raffle).value.ticketPrice))
        && redirect == Some("/verificar")
      ensures old(raffle).Some? && old(state) != [] && !response.Accepted? ==>
        && cartRaffle == old(cartRaffle) && cartTickets == old(cartTickets) && summary.None?
        && redirect == old(redirect)
        && notice == Some(if response.Failed? then response.error
                          else if response.message.Some? && response.message.value != [] then response.message.value
                          else "Error al reservar")
    {
      request, notice, summary := None, None, None;
      if raffle.None? {
        return;
      }
      if state == [] {
        notice := Some(StateMissing);
        return;
      }
      loading := true;
      var r := raffle.value;
      request := Some(BulkBody(r.id, name, phone, state, tickets));
      match response {
        case Rejected(m) =>
          notice := Some(if m.Some? && m.value != [] then m.value else "Error al reservar");
        case Failed(e) =>
          notice := Some(e);
        case Accepted =>
          cartRaffle := None;
          cartTickets := None;
          var total := |tickets| * r.ticketPrice;
          summary := Some(Summary(TicketString(tickets), total));
          redirect := Some("/verificar");
      }
      loading := false;
    }
  }
}
