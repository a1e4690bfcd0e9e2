/**
 * The ticket reservation and payment engine of `tickets.service.ts`.
 *
 * Every service call is one atomic step. Each has a pure definition over a
 * store value (`CreateStep`, `CreateManyStep`, `MarkAsPaidStep`, and the
 * queries), about which the lemmas below state what the service promises, and
 * a method of `TicketsService` that performs the same call on the shared
 * `Database` step by step and is proved to agree with the definition.
 */
module Tickets {
  import opened Wrappers
  import opened Store
  import Sorting
  import Text

  /** The exceptions the service raises, one constructor per distinct failure. */
  datatype TicketError =
    | RaffleNotFound                         // NotFoundException: the raffle does not exist
    | DatesNotConfigured                     // the raffle lacks a start or an end date
    | RaffleNotActive                        // the current time is outside the raffle's window
    | NumbersOutOfRange(numbers: seq<int>)   // the requested numbers outside 0 .. totalTickets - 1
    | NumbersTaken(numbers: seq<int>)        // the requested numbers that already have a ticket
    | TicketNotFound                         // the ticket to mark as paid does not exist
    | RaffleMissing                          // the ticket insert violates the foreign key to the raffle

  /** The body of a reservation request (`CreateTicketDto`). */
  datatype CreateTicketDto = CreateTicketDto(
    raffleId: Id, numbers: seq<int>, clientName: string, clientPhone: string, clientState: Option<string>)

  /** What a successful `create` returns: the requested numbers and the stored client's name. */
  datatype Reservation = Reservation(tickets: seq<int>, client: string)

  /** The body of a `bulk` reservation (`createMany`). */
  datatype BulkRequest = BulkRequest(
    raffleId: Id, clientName: string, clientPhone: string, clientState: Option<string>, ticketNumbers: seq<int>)

  /** The outcome of one service call: its result and the store afterwards. */
  datatype Step<T> = Step(result: Result<T, TicketError>, after: Tables)

  datatype TicketWithClient = TicketWithClient(ticket: Ticket, client: Client)

  datatype TicketDetails = TicketDetails(ticket: Ticket, raffle: Raffle, client: Client)

  /** One bucket of the revenue rollup: a calendar day and the money taken that day. */
  datatype DailySales = DailySales(day: int, total: int)

  /** The ticket state recorded by `createMany` when the request carries none. */
  const UnknownState: string := "Desconocido"

  const MsPerDay: int := 86400000

  /** The calendar day of a timestamp. */
  function DayOf(ms: int): int { ms / MsPerDay }

  predicate InRange(n: int, totalTickets: int) { 0 <= n < totalTickets }

  predicate Distinct(s: seq<int>) { forall i, j :: 0 <= i < j < |s| ==> s[i] != s[j] }

  /** The central invariant: within one raffle no two tickets share a number. */
  predicate NumbersUnique(tickets: seq<Ticket>)
  {
    forall i, j :: 0 <= i < j < |tickets| && tickets[i].raffleId == tickets[j].raffleId ==>
      tickets[i].ticketNumber != tickets[j].ticketNumber
  }

  /** The requested numbers outside the raffle's range, in request order. */
  function OutOfRange(numbers: seq<int>, totalTickets: int): (r: seq<int>)
    ensures forall n {:trigger n in r} :: n in r <==> n in numbers && !InRange(n, totalTickets)
    ensures r == [] <==> forall n :: n in numbers ==> InRange(n, totalTickets)
  {
    if numbers == [] then []
    else (if InRange(numbers[0], totalTickets) then [] else [numbers[0]]) + OutOfRange(numbers[1..], totalTickets)
  }

  /** `OutOfRange` is a filter: it works piece by piece, so the invalid numbers keep the request's order and repeats. */
  lemma {:induction false} OutOfRangeAppend(a: seq<int>, b: seq<int>, totalTickets: int)
    ensures OutOfRange(a + b, totalTickets) == OutOfRange(a, totalTickets) + OutOfRange(b, totalTickets)
  {
    if a == [] {
      assert a + b == b && OutOfRange(a, totalTickets) == [];
    } else {
      var h := if InRange(a[0], totalTickets) then [] else [a[0]];
      calc {
        OutOfRange(a + b, totalTickets);
        == { assert (a + b)[1..] == a[1..] + b && (a + b)[0] == a[0]; }
        h + OutOfRange(a[1..] + b, totalTickets);
        == { OutOfRangeAppend(a[1..], b, totalTickets); }
        h + (OutOfRange(a[1..], totalTickets) + OutOfRange(b, totalTickets));
        ==
        (h + OutOfRange(a[1..], totalTickets)) + OutOfRange(b, totalTickets);
        ==
        OutOfRange(a, totalTickets) + OutOfRange(b, totalTickets);
      }
    }
  }

  /** A single number is reported exactly when it is outside the range. */
  lemma OutOfRangeSingle(n: int, totalTickets: int)
    ensures OutOfRange([n], totalTickets) == if InRange(n, totalTickets) then [] else [n]
  {
    assert [n][1..] == [];
  }

  predicate HasNumber(tickets: seq<Ticket>, raffleId: Id, n: int)
  {
    exists k :: 0 <= k < |tickets| && tickets[k].raffleId == raffleId && tickets[k].ticketNumber == n
  }

  /** `getOccupiedTickets`: the numbers of the raffle's tickets that are reserved or paid, in store order. */
  function GetOccupiedTickets(tickets: seq<Ticket>, raffleId: Id): (r: seq<int>)
    ensures forall n :: n in r <==> HasNumber(tickets, raffleId, n)
  {
    if tickets == [] then []
    else
      var t := tickets[0];
      var rest := GetOccupiedTickets(tickets[1..], raffleId);
      assert forall n :: HasNumber(tickets[1..], raffleId, n) ==> HasNumber(tickets, raffleId, n) by {
        forall n | HasNumber(tickets[1..], raffleId, n) ensures HasNumber(tickets, raffleId, n) {
          var k :| 0 <= k < |tickets[1..]| && tickets[1..][k].raffleId == raffleId && tickets[1..][k].ticketNumber == n;
          assert tickets[k + 1] == tickets[1..][k];
        }
      }
      assert forall n :: HasNumber(tickets, raffleId, n) ==>
        (t.raffleId == raffleId && t.ticketNumber == n) || HasNumber(tickets[1..], raffleId, n) by {
        forall n | HasNumber(tickets, raffleId, n)
          ensures (t.raffleId == raffleId && t.ticketNumber == n) || HasNumber(tickets[1..], raffleId, n)
        {
          var k :| 0 <= k < |tickets| && tickets[k].raffleId == raffleId && tickets[k].ticketNumber == n;
          if k > 0 { assert tickets[1..][k - 1] == tickets[k]; }
        }
      }
      (if t.raffleId == raffleId && (t.status == Reserved || t.status == Paid) then [t.ticketNumber] else []) + rest
  }

  /** The requested numbers that already have a ticket in the raffle, one entry per such ticket, in store order. */
  function Taken(tickets: seq<Ticket>, raffleId: Id, numbers: seq<int>): (r: seq<int>)
    ensures forall n :: n in r <==> n in numbers && HasNumber(tickets, raffleId, n)
    ensures r == [] <==> forall n :: n in numbers ==> !HasNumber(tickets, raffleId, n)
  {
    var r := KeepRequested(GetOccupiedTickets(tickets, raffleId), numbers);
    assert r == [] ==> forall n :: n in numbers ==> !HasNumber(tickets, raffleId, n) by {
      if r == [] {
        forall n | n in numbers ensures !HasNumber(tickets, raffleId, n) {
          assert n !in r;
        }
      }
    }
    assert r != [] ==> r[0] in numbers && HasNumber(tickets, raffleId, r[0]) by {
      if r != [] {
        assert r[0] in r;
      }
    }
    r
  }

  function KeepRequested(occupied: seq<int>, numbers: seq<int>): (r: seq<int>)
    ensures forall n :: n in r <==> n in numbers && n in occupied
  {
    if occupied == [] then []
    else
      (if occupied[0] in numbers then [occupied[0]] else []) + KeepRequested(occupied[1..], numbers)
  }

  /** The checks `create` makes, in order; `None` when all pass. */
  function CreateCheck(db: Tables, dto: CreateTicketDto, now: int): Option<TicketError>
  {
    match FindRaffle(db.raffles, dto.raffleId)
    case None => Some(RaffleNotFound)
    case Some(raffle) =>
      if raffle.startDate.None? || raffle.endDate.None? then Some(DatesNotConfigured)
      else if now < raffle.startDate.value || now > raffle.endDate.value then Some(RaffleNotActive)
      else if |OutOfRange(dto.numbers, raffle.totalTickets)| > 0 then
        Some(NumbersOutOfRange(OutOfRange(dto.numbers, raffle.totalTickets)))
      else if |Taken(db.tickets, dto.raffleId, dto.numbers)| > 0 then
        Some(NumbersTaken(Taken(db.tickets, dto.raffleId, dto.numbers)))
      else None
  }

  /** Find the client by phone, or create one with the given name and state. */
  function ResolveClient(db: Tables, name: string, phone: string, state: Option<string>): (Client, Tables)
  {
    if phone in db.clients then (db.clients[phone], db)
    else
      var client := Client(db.nextId, name, phone, state);
      (client, db.(clients := db.clients[phone := client], nextId := db.nextId + 1))
  }

  /** The RESERVED rows inserted for `numbers`, one per entry, with consecutive fresh identifiers. */
  function NewTickets(numbers: seq<int>, raffleId: Id, clientId: Id, clientState: Option<string>, firstId: Id, now: int)
    : seq<Ticket>
  {
    seq(|numbers|, k requires 0 <= k < |numbers| =>
      Ticket(firstId + k, raffleId, clientId, numbers[k], Reserved, clientState, now, None))
  }

  function AddTickets(db: Tables, added: seq<Ticket>): Tables
  {
    db.(tickets := db.tickets + added, nextId := db.nextId + |added|)
  }

  lemma ResolveClientValid(db: Tables, name: string, phone: string, state: Option<string>)
    requires db.Valid()
    ensures ResolveClient(db, name, phone, state).1.Valid()
    ensures ResolveClient(db, name, phone, state).1.raffles == db.raffles
    ensures ResolveClient(db, name, phone, state).1.tickets == db.tickets
    ensures ResolveClient(db, name, phone, state).0.id in ClientIds(ResolveClient(db, name, phone, state).1.clients)
    ensures phone in ResolveClient(db, name, phone, state).1.clients
  {
    var (c, db1) := ResolveClient(db, name, phone, state);
    assert c == db1.clients[phone];
    if phone !in db.clients {
      forall k | 0 <= k < |db1.tickets| ensures db1.tickets[k].clientId in ClientIds(db1.clients) {
        assert db.tickets[k].clientId in ClientIds(db.clients);
        var p :| p in db.clients && db.clients[p].id == db.tickets[k].clientId;
        assert db1.clients[p] == db.clients[p];
      }
    }
  }

  lemma AddTicketsValid(db: Tables, added: seq<Ticket>)
    requires db.Valid()
    requires forall k :: 0 <= k < |added| ==>
      && added[k].id == db.nextId + k
      && FindRaffle(db.raffles, added[k].raffleId).Some?
      && added[k].clientId in ClientIds(db.clients)
    ensures AddTickets(db, added).Valid()
  {
    var db1 := AddTickets(db, added);
    var n := |db.tickets|;
    forall k | 0 <= k < |db1.tickets|
      ensures && db1.tickets[k].id < db1.nextId
              && FindRaffle(db1.raffles, db1.tickets[k].raffleId).Some?
              && db1.tickets[k].clientId in ClientIds(db1.clients)
    {
      if k < n {
        assert db1.tickets[k] == db.tickets[k];
      } else {
        assert db1.tickets[k] == added[k - n];
      }
    }
    forall i, j | 0 <= i < j < |db1.tickets| ensures db1.tickets[i].id != db1.tickets[j].id {
      if j < n {
        assert db1.tickets[i] == db.tickets[i] && db1.tickets[j] == db.tickets[j];
      } else if i < n {
        assert db1.tickets[i] == db.tickets[i] && db1.tickets[j] == added[j - n];
      } else {
        assert db1.tickets[i] == added[i - n] && db1.tickets[j] == added[j - n];
      }
    }
  }

  /**
   * `create`: the checks in order, then find-or-create the client, then one
   * RESERVED ticket per requested number. A failure leaves the store as it was.
   */
  function CreateStep(db: Tables, dto: CreateTicketDto, now: int): (r: Step<Reservation>)
    requires db.Valid()
    ensures r.after.Valid()
    ensures r.result.Failure? ==> r.after == db
    ensures r.result.Success? ==> r.result.value.tickets == dto.numbers && r.after.raffles == db.raffles
  {
    match CreateCheck(db, dto, now)
    case Some(e) => Step(Failure(e), db)
    case None =>
      var (client, db1) := ResolveClient(db, dto.clientName, dto.clientPhone, dto.clientState);
      ResolveClientValid(db, dto.clientName, dto.clientPhone, dto.clientState);
      var added := NewTickets(dto.numbers, dto.raffleId, client.id, None, db1.nextId, now);
      AddTicketsValid(db1, added);
      Step(Success(Reservation(dto.numbers, client.name)), AddTickets(db1, added))
  }

  /** The state label `createMany` stores: the request's state, or `Desconocido` when it is absent or empty. */
  function BulkStateLabel(state: Option<string>): (r: string)
    ensures r != []
    ensures state.Some? && state.value != [] ==> r == state.value
  {
    if state.Some? && state.value != [] then state.value else UnknownState
  }

  /**
   * `createMany`: only the occupancy check; the client is found or created
   * (without a state) before the insert; the insert fails on the foreign key
   * when the raffle is missing, and the client created for it stays.
   */
  function CreateManyStep(db: Tables, req: BulkRequest, now: int): (r: Step<seq<Ticket>>)
    requires db.Valid()
    ensures r.after.Valid()
    ensures r.after.raffles == db.raffles
    ensures r.result.Failure? && r.result.error.NumbersTaken? ==>
      && r.after == db
      && forall n :: n in r.result.error.numbers <==> n in req.ticketNumbers && HasNumber(db.tickets, req.raffleId, n)
  {
    var taken := Taken(db.tickets, req.raffleId, req.ticketNumbers);
    if |taken| > 0 then Step(Failure(NumbersTaken(taken)), db)
    else
      var (client, db1) := ResolveClient(db, req.clientName, req.clientPhone, None);
      ResolveClientValid(db, req.clientName, req.clientPhone, None);
      if |req.ticketNumbers| > 0 && FindRaffle(db1.raffles, req.raffleId).None? then
        Step(Failure(RaffleMissing), db1)
      else
        var added := NewTickets(req.ticketNumbers, req.raffleId, client.id,
                                Some(BulkStateLabel(req.clientState)), db1.nextId, now);
        AddTicketsValid(db1, added);
        Step(Success(added), AddTickets(db1, added))
  }

  /** The position of the ticket with identifier `id`, if any. */
  function IndexOfTicket(tickets: seq<Ticket>, id: Id): (r: Option<nat>)
    ensures r.Some? ==> r.value < |tickets| && tickets[r.value].id == id
    ensures r.None? ==> forall k :: 0 <= k < |tickets| ==> tickets[k].id != id
  {
    if tickets == [] then None
    else if tickets[0].id == id then Some(0)
    else match IndexOfTicket(tickets[1..], id)
      case None => None
      case Some(k) => Some(k + 1)
  }

  /** `markAsPaid`: the ticket becomes PAID with `paidAt` set to now, whatever its status was. */
  function MarkAsPaidStep(db: Tables, id: Id, now: int): (r: Step<Ticket>)
    requires db.Valid()
    ensures r.after.Valid()
    ensures r.result.Failure? <==> forall k :: 0 <= k < |db.tickets| ==> db.tickets[k].id != id
    ensures r.result.Failure? ==> r.result.error == TicketNotFound && r.after == db
    ensures r.result.Success? ==> exists k :: (0 <= k < |db.tickets| && db.tickets[k].id == id
      && r.result.value == db.tickets[k].(status := Paid, paidAt := Some(now))
      && r.after == db.(tickets := db.tickets[k := r.result.value]))
  {
    match IndexOfTicket(db.tickets, id)
    case None => Step(Failure(TicketNotFound), db)
    case Some(k) =>
      var paid := db.tickets[k].(status := Paid, paidAt := Some(now));
      ReplaceTicketValid(db, k, paid);
      Step(Success(paid), db.(tickets := db.tickets[k := paid]))
  }

  /** Rewriting one ticket without changing its identifier, raffle or client keeps the store valid. */
  lemma ReplaceTicketValid(db: Tables, k: nat, t: Ticket)
    requires db.Valid() && k < |db.tickets|
    requires t.id == db.tickets[k].id && t.raffleId == db.tickets[k].raffleId && t.clientId == db.tickets[k].clientId
    ensures db.(tickets := db.tickets[k := t]).Valid()
  {
    var ts := db.tickets[k := t];
    assert forall j :: 0 <= j < |ts| ==>
      ts[j].id == db.tickets[j].id && ts[j].raffleId == db.tickets[j].raffleId && ts[j].clientId == db.tickets[j].clientId;
  }

  /** The rows of the raffle, in store order. */
  function InRaffle(tickets: seq<Ticket>, raffleId: Id): (r: seq<Ticket>)
    ensures forall t :: t in r <==> t in tickets && t.raffleId == raffleId
  {
    if tickets == [] then []
    else (if tickets[0].raffleId == raffleId then [tickets[0]] else []) + InRaffle(tickets[1..], raffleId)
  }

  /**
   * The occupied list has one entry per ticket of the raffle, in store order:
   * a number held by two rows is listed twice.
   */
  lemma {:induction false} OccupiedAreRaffleNumbers(tickets: seq<Ticket>, raffleId: Id)
    ensures |GetOccupiedTickets(tickets, raffleId)| == |InRaffle(tickets, raffleId)|
    ensures forall k :: 0 <= k < |InRaffle(tickets, raffleId)| ==>
      GetOccupiedTickets(tickets, raffleId)[k] == InRaffle(tickets, raffleId)[k].ticketNumber
  {
    if tickets != [] {
      OccupiedAreRaffleNumbers(tickets[1..], raffleId);
    }
  }

  /** The rows whose client is one of `clientIds`, in store order. */
  function OwnedBy(tickets: seq<Ticket>, clientIds: set<Id>): (r: seq<Ticket>)
    ensures forall t :: t in r <==> t in tickets && t.clientId in clientIds
  {
    if tickets == [] then []
    else (if tickets[0].clientId in clientIds then [tickets[0]] else []) + OwnedBy(tickets[1..], clientIds)
  }

  function NumberKey(t: Ticket): int { t.ticketNumber }

  /** The ticket of a joined row. */
  function DetailTicket(v: TicketDetails): Ticket { v.ticket }

  /** The ticket of a row with its client. */
  function ClientRowTicket(v: TicketWithClient): Ticket { v.ticket }

  function Rows<V>(views: seq<V>, row: V -> Ticket): (r: seq<Ticket>)
    ensures |r| == |views|
    ensures forall k :: 0 <= k < |views| ==> r[k] == row(views[k])
  {
    seq(|views|, k requires 0 <= k < |views| => row(views[k]))
  }

  /** A stored ticket's raffle and client are stored. */
  lemma StoredTicketRefs(db: Tables, t: Ticket)
    requires db.Valid() && t in db.tickets
    ensures FindRaffle(db.raffles, t.raffleId).Some? && t.clientId in ClientIds(db.clients)
  {
    var k :| 0 <= k < |db.tickets| && db.tickets[k] == t;
  }

  function WithClient(db: Tables, ts: seq<Ticket>): (r: seq<TicketWithClient>)
    requires db.Valid()
    requires forall t :: t in ts ==> t in db.tickets
    ensures |r| == |ts|
    ensures forall k :: 0 <= k < |ts| ==> r[k].ticket == ts[k] && r[k].client.id == ts[k].clientId
    ensures forall k :: 0 <= k < |ts| ==> r[k].client.phone in db.clients && db.clients[r[k].client.phone] == r[k].client
  {
    seq(|ts|, k requires 0 <= k < |ts| => assert ts[k] in ts; ClientRowOf(db, ts[k]))
  }

  /** One row of `include: { client: true }`: a stored ticket with the client stored under the client's phone. */
  function ClientRowOf(db: Tables, t: Ticket): (v: TicketWithClient)
    requires db.Valid() && t in db.tickets
    ensures v.ticket == t && v.client.id == t.clientId
    ensures v.client.phone in db.clients && db.clients[v.client.phone] == v.client
  {
    StoredTicketRefs(db, t);
    TicketWithClient(t, ClientById(db.clients, t.clientId).value)
  }

  /** `d` is the ticket `t` joined with the stored raffle of its identifier and with the client stored under the client's phone. */
  predicate Joined(db: Tables, t: Ticket, d: TicketDetails)
  {
    && d.ticket == t && d.client.id == t.clientId && d.raffle.id == t.raffleId
    && FindRaffle(db.raffles, t.raffleId) == Some(d.raffle)
    && d.client.phone in db.clients && db.clients[d.client.phone] == d.client
  }

  function WithDetails(db: Tables, ts: seq<Ticket>): (r: seq<TicketDetails>)
    requires db.Valid()
    requires forall t :: t in ts ==> t in db.tickets
    ensures |r| == |ts|
    ensures forall k :: 0 <= k < |ts| ==> Joined(db, ts[k], r[k])
  {
    seq(|ts|, k requires 0 <= k < |ts| => assert ts[k] in ts; DetailsOf(db, ts[k]))
  }

  /** One row of `include: { raffle: true, client: true }`: a stored ticket with its raffle and its stored client. */
  function DetailsOf(db: Tables, t: Ticket): (d: TicketDetails)
    requires db.Valid() && t in db.tickets
    ensures Joined(db, t, d)
  {
    StoredTicketRefs(db, t);
    TicketDetails(t, FindRaffle(db.raffles, t.raffleId).value, ClientById(db.clients, t.clientId).value)
  }

  lemma SortedRowsStored(rows: seq<Ticket>, db: Tables)
    requires forall t :: t in rows ==> t in db.tickets
    ensures forall t :: t in Sorting.SortBy(rows, NumberKey) ==> t in db.tickets
  {
    forall t | t in Sorting.SortBy(rows, NumberKey) ensures t in db.tickets {
      assert t in multiset(Sorting.SortBy(rows, NumberKey));
    }
  }

  /** `findAllByRaffle`: the raffle's tickets, each with its client, by ascending ticket number. */
  function FindAllByRaffle(db: Tables, raffleId: Id): (r: seq<TicketWithClient>)
    requires db.Valid()
    ensures multiset(Rows(r, ClientRowTicket)) == multiset(InRaffle(db.tickets, raffleId))
    ensures Sorting.SortedBy(Rows(r, ClientRowTicket), NumberKey)
    ensures forall k :: 0 <= k < |r| ==> r[k].client.id == r[k].ticket.clientId
    ensures forall k :: 0 <= k < |r| ==> r[k].client.phone in db.clients && db.clients[r[k].client.phone] == r[k].client
  {
    var rows := InRaffle(db.tickets, raffleId);
    var sorted := Sorting.SortBy(rows, NumberKey);
    SortedRowsStored(rows, db);
    var r := WithClient(db, sorted);
    assert Rows(r, ClientRowTicket) == sorted;
    r
  }

  /** The clients whose stored phone contains the digits of the searched phone. */
  function MatchingClients(db: Tables, phone: string): set<Id>
  {
    set p | p in db.clients && Text.Contains(p, Text.KeepDigits(phone)) :: db.clients[p].id
  }

  /**
   * `findByPhone`: every ticket whose client's phone contains the digits of
   * `phone`, with its raffle and client, by ascending ticket number.
   */
  function FindByPhone(db: Tables, phone: string): (r: seq<TicketDetails>)
    requires db.Valid()
    ensures multiset(Rows(r, DetailTicket)) == multiset(OwnedBy(db.tickets, MatchingClients(db, phone)))
    ensures Sorting.SortedBy(Rows(r, DetailTicket), NumberKey)
    ensures forall k :: 0 <= k < |r| ==>
      && r[k].client.id == r[k].ticket.clientId && r[k].raffle.id == r[k].ticket.raffleId
      && Text.Contains(r[k].client.phone, Text.KeepDigits(phone))
    ensures forall k :: 0 <= k < |r| ==> Joined(db, r[k].ticket, r[k])
  {
    var rows := OwnedBy(db.tickets, MatchingClients(db, phone));
    var sorted := Sorting.SortBy(rows, NumberKey);
    assert forall t :: t in sorted ==> t in rows by {
      forall t | t in sorted ensures t in rows {
        assert t in multiset(sorted);
      }
    }
    DetailsRows(db, sorted);
    DetailsMatchPhone(db, phone, sorted);
    WithDetails(db, sorted)
  }

  /** The tickets of the joined rows are the tickets joined. */
  lemma DetailsRows(db: Tables, ts: seq<Ticket>)
    requires db.Valid()
    requires forall t :: t in ts ==> t in db.tickets
    ensures Rows(WithDetails(db, ts), DetailTicket) == ts
  {
    var rows := Rows(WithDetails(db, ts), DetailTicket);
    forall k | 0 <= k < |ts| ensures rows[k] == ts[k] {
      assert WithDetails(db, ts)[k].ticket == ts[k];
    }
  }

  /** Every joined row of a ticket of a matching client shows a phone that contains the searched digits. */
  lemma DetailsMatchPhone(db: Tables, phone: string, ts: seq<Ticket>)
    requires db.Valid()
    requires forall t :: t in ts ==> t in db.tickets && t.clientId in MatchingClients(db, phone)
    ensures var r := WithDetails(db, ts);
      forall k :: 0 <= k < |r| ==> Joined(db, r[k].ticket, r[k]) && Text.Contains(r[k].client.phone, Text.KeepDigits(phone))
  {
    var r := WithDetails(db, ts);
    forall k | 0 <= k < |r|
      ensures Joined(db, r[k].ticket, r[k]) && Text.Contains(r[k].client.phone, Text.KeepDigits(phone))
    {
      assert Joined(db, ts[k], r[k]);
      assert ts[k] in ts;
      var p :| p in db.clients && Text.Contains(p, Text.KeepDigits(phone)) && db.clients[p].id == ts[k].clientId;
      assert db.clients[r[k].client.phone].id == ts[k].clientId;
    }
  }

  /** The price of a ticket: its raffle's unit price. */
  function PriceOf(raffles: seq<Raffle>, t: Ticket): int
  {
    match FindRaffle(raffles, t.raffleId)
    case Some(raffle) => raffle.ticketPrice
    case None => 0
  }

  /** The money taken on calendar day `day`: the sum of the prices of the tickets created that day. */
  function DayRevenue(tickets: seq<Ticket>, raffles: seq<Raffle>, day: int): int
  {
    if tickets == [] then 0
    else
      var t := tickets[|tickets| - 1];
      DayRevenue(tickets[..|tickets| - 1], raffles, day) + (if DayOf(t.createdAt) == day then PriceOf(raffles, t) else 0)
  }

  /** The initialising loop: one bucket per day from today back six days, today first, each at zero. */
  method EmptyBuckets(today: int) returns (days: seq<int>, sales: map<int, int>)
    ensures |days| == 7 && forall k :: 0 <= k < 7 ==> days[k] == today - k
    ensures forall d :: d in sales <==> today - 7 < d <= today
    ensures forall d :: d in sales ==> sales[d] == 0
  {
    sales := map[];
    days := [];
    for i := 0 to 7
      invariant |days| == i
      invariant forall k :: 0 <= k < i ==> days[k] == today - k
      invariant forall d :: d in sales <==> today - i < d <= today
      invariant forall d :: d in sales ==> sales[d] == 0
    {
      days := days + [today - i];
      sales := sales[today - i := 0];
    }
  }

  /**
   * The summing `forEach` over the tickets fetched since the start of the
   * day a week ago: a ticket whose day has a bucket adds its raffle's price
   * there. Each bucket ends as the revenue of its day.
   */
  method AddUpSales(tickets: seq<Ticket>, raffles: seq<Raffle>, today: int, empty: map<int, int>) returns (sales: map<int, int>)
    requires forall k :: 0 <= k < |tickets| ==> FindRaffle(raffles, tickets[k].raffleId).Some?
    requires forall d :: d in empty <==> today - 7 < d <= today
    requires forall d :: d in empty ==> empty[d] == 0
    ensures forall d :: d in sales <==> today - 7 < d <= today
    ensures forall d :: d in sales ==> sales[d] == DayRevenue(tickets, raffles, d)
  {
    var sevenDaysAgo := (today - 7) * MsPerDay;
    sales := empty;
    for j := 0 to |tickets|
      invariant forall d :: d in sales <==> today - 7 < d <= today
      invariant forall d :: d in sales ==> sales[d] == DayRevenue(tickets[..j], raffles, d)
    {
      var t := tickets[j];
      assert tickets[..j + 1][..j] == tickets[..j];
      if t.createdAt >= sevenDaysAgo {
        var day := DayOf(t.createdAt);
        if day in sales {
          var price := FindRaffle(raffles, t.raffleId).value.ticketPrice;
          sales := sales[day := sales[day] + price];
        }
      } else {
        assert DayOf(t.createdAt) < today - 7;
      }
    }
    assert tickets[..|tickets|] == tickets;
  }

  /** The entries of the seven buckets, reversed: oldest day first, today last. */
  method OldestFirst(days: seq<int>, sales: map<int, int>) returns (result: seq<DailySales>)
    requires |days| == 7 && forall k :: 0 <= k < 7 ==> days[k] in sales
    ensures |result| == 7
    ensures forall k :: 0 <= k < 7 ==> result[k] == DailySales(days[6 - k], sales[days[6 - k]])
  {
    result := [];
    for i := 0 to 7
      invariant |result| == i
      invariant forall k :: 0 <= k < i ==> result[k] == DailySales(days[i - 1 - k], sales[days[i - 1 - k]])
    {
      ghost var prev := result;
      result := [DailySales(days[i], sales[days[i]])] + result;
      assert forall k :: 1 <= k <= i ==> result[k] == prev[k - 1];
    }
  }

  class TicketsService {
    const db: Database

    constructor (db: Database)
      ensures this.db == db
    {
      this.db := db;
    }

    /** `findFirst` on the phone, and `create` when there is no such client. */
    method FindOrCreateClient(name: string, phone: string, state: Option<string>) returns (client: Client)
      modifies db
      ensures (client, db.Value()) == ResolveClient(old(db.Value()), name, phone, state)
    {
      if phone in db.clients {
        client := db.clients[phone];
      } else {
        client := Client(db.nextId, name, phone, state);
        db.clients := db.clients[phone := client];
        db.nextId := db.nextId + 1;
      }
    }

    /** The `createMany` of ticket rows: one RESERVED row per number, appended in order. */
    method InsertReserved(numbers: seq<int>, raffleId: Id, clientId: Id, state: Option<string>, now: int)
      returns (created: seq<Ticket>)
      modifies db
      ensures created == NewTickets(numbers, raffleId, clientId, state, old(db.nextId), now)
      ensures db.Value() == AddTickets(old(db.Value()), created)
    {
      created := [];
      var i := 0;
      while i < |numbers|
        invariant 0 <= i <= |numbers|
        invariant db.raffles == old(db.raffles) && db.clients == old(db.clients)
        invariant db.nextId == old(db.nextId) + i
        invariant created == NewTickets(numbers[..i], raffleId, clientId, state, old(db.nextId), now)
        invariant db.tickets == old(db.tickets) + created
      {
        var ticket := Ticket(db.nextId, raffleId, clientId, numbers[i], Reserved, state, now, None);
        assert NewTickets(numbers[..i + 1], raffleId, clientId, state, old(db.nextId), now) == created + [ticket];
        db.tickets := db.tickets + [ticket];
        db.nextId := db.nextId + 1;
        created := created + [ticket];
        i := i + 1;
      }
      assert numbers[..i] == numbers;
    }

    /** `create`, one atomic step on the shared store. */
    method Create(dto: CreateTicketDto, now: int) returns (r: Result<Reservation, TicketError>)
      requires db.Valid()
      modifies db
      ensures Step(r, db.Value()) == CreateStep(old(db.Value()), dto, now)
      ensures db.Valid()
    {
      var raffle := FindRaffle(db.raffles, dto.raffleId);
      if raffle.None? {
        return Failure(RaffleNotFound);
      }
      var rf := raffle.value;
      if rf.startDate.None? || rf.endDate.None? {
        return Failure(DatesNotConfigured);
      }
      if now < rf.startDate.value || now > rf.endDate.value {
        return Failure(RaffleNotActive);
      }
      var invalidNumbers := OutOfRange(dto.numbers, rf.totalTickets);
      if |invalidNumbers| > 0 {
        return Failure(NumbersOutOfRange(invalidNumbers));
      }
      var existing := Taken(db.tickets, dto.raffleId, dto.numbers);
      if |existing| > 0 {
        return Failure(NumbersTaken(existing));
      }
      ghost var before := db.Value();
      assert CreateCheck(before, dto, now) == None;
      var client := FindOrCreateClient(dto.clientName, dto.clientPhone, dto.clientState);
      var _ := InsertReserved(dto.numbers, dto.raffleId, client.id, None, now);
      return Success(Reservation(dto.numbers, client.name));
    }

    /** `createMany`: the occupancy check, the client outside the insert, then the insert. */
    method CreateMany(req: BulkRequest, now: int) returns (r: Result<seq<Ticket>, TicketError>)
      requires db.Valid()
      modifies db
      ensures Step(r, db.Value()) == CreateManyStep(old(db.Value()), req, now)
      ensures db.Valid()
    {
      var existing := Taken(db.tickets, req.raffleId, req.ticketNumbers);
      if |existing| > 0 {
        return Failure(NumbersTaken(existing));
      }
      ghost var before := db.Value();
      var client := FindOrCreateClient(req.clientName, req.clientPhone, None);
      ResolveClientValid(before, req.clientName, req.clientPhone, None);
      if |req.ticketNumbers| > 0 && FindRaffle(db.raffles, req.raffleId).None? {
        return Failure(RaffleMissing);
      }
      var created := InsertReserved(req.ticketNumbers, req.raffleId, client.id, Some(BulkStateLabel(req.clientState)), now);
      return Success(created);
    }

    /** `markAsPaid`. */
    method MarkAsPaid(id: Id, now: int) returns (r: Result<Ticket, TicketError>)
      requires db.Valid()
      modifies db
      ensures Step(r, db.Value()) == MarkAsPaidStep(old(db.Value()), id, now)
      ensures db.Valid()
    {
      var k := IndexOfTicket(db.tickets, id);
      if k.None? {
        return Failure(TicketNotFound);
      }
      var paid := db.tickets[k.value].(status := Paid, paidAt := Some(now));
      db.tickets := db.tickets[k.value := paid];
      return Success(paid);
    }

    /**
     * `getDailySales`: seven buckets, today and the six days before, oldest
     * first, each the revenue of the tickets created that day.
     */
    method GetDailySales(now: int) returns (result: seq<DailySales>)
      requires db.Valid()
      ensures |result| == 7
      ensures forall k :: 0 <= k < 7 ==>
        result[k] == DailySales(DayOf(now) - 6 + k, DayRevenue(db.tickets, db.raffles, DayOf(now) - 6 + k))
    {
      var today := DayOf(now);
      var days, salesByDate := EmptyBuckets(today);
      salesByDate := AddUpSales(db.tickets, db.raffles, today, salesByDate);
      result := OldestFirst(days, salesByDate);
      forall k | 0 <= k < 7 ensures result[k] == DailySales(today - 6 + k, DayRevenue(db.tickets, db.raffles, today - 6 + k)) {
        assert days[6 - k] == today - 6 + k;
      }
    }
  }
}
