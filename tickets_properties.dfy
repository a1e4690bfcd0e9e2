/**
 * What the ticket service promises, stated over the step definitions of
 * module `Tickets`: the order of the reservation checks, the numbers a
 * reservation occupies, the uniqueness of ticket numbers within a raffle (and
 * the request that breaks it), payment, the bulk path, the phone search and
 * the seven-day revenue rollup.
 */
module TicketsProperties {
  import opened Wrappers
  import opened Store
  import opened Tickets
  import Sorting
  import Text

  /* ---------------------------------------------------------------- create */

  /** A reservation succeeds exactly when the raffle exists, is inside its dates, and every number is in range and free. */
  lemma CreateSucceedsIff(db: Tables, dto: CreateTicketDto, now: int)
    requires db.Valid()
    ensures CreateStep(db, dto, now).result.Success? <==>
      && FindRaffle(db.raffles, dto.raffleId).Some?
      && var raffle := FindRaffle(db.raffles, dto.raffleId).value;
      && raffle.startDate.Some? && raffle.endDate.Some?
      && raffle.startDate.value <= now <= raffle.endDate.value
      && (forall n :: n in dto.numbers ==> InRange(n, raffle.totalTickets))
      && (forall n :: n in dto.numbers ==> !HasNumber(db.tickets, dto.raffleId, n))
  {
  }

  /**
   * The checks run in a fixed order and the first that fails decides the
   * error; the number lists in the errors are exactly the offending numbers.
   */
  lemma CreateErrors(db: Tables, dto: CreateTicketDto, now: int)
    requires db.Valid()
    ensures var r := CreateStep(db, dto, now).result;
      && var f := FindRaffle(db.raffles, dto.raffleId);
      && (f.None? ==> r == Failure(RaffleNotFound))
      && (f.Some? && (f.value.startDate.None? || f.value.endDate.None?) ==> r == Failure(DatesNotConfigured))
      && ((f.Some? && f.value.startDate.Some? && f.value.endDate.Some? &&
           (now < f.value.startDate.value || now > f.value.endDate.value)) ==> r == Failure(RaffleNotActive))
      && (r.Failure? && r.error.NumbersOutOfRange? ==>
            && r.error.numbers == OutOfRange(dto.numbers, f.value.totalTickets)
            && forall n :: n in r.error.numbers <==> n in dto.numbers && !InRange(n, f.value.totalTickets))
      && (r.Failure? && r.error.NumbersTaken? ==>
            r.error.numbers != [] &&
            forall n :: n in r.error.numbers <==> n in dto.numbers && HasNumber(db.tickets, dto.raffleId, n))
      && (r.Failure? && r.error.NumbersTaken? ==>
            forall n :: n in dto.numbers ==> InRange(n, FindRaffle(db.raffles, dto.raffleId).value.totalTickets))
  {
  }

  /**
   * A successful reservation keeps the raffles, reuses the client stored
   * under the phone (returning that client's stored name) or creates one with
   * the request's name and state, and appends one RESERVED ticket per
   * requested number, in request order, with no state of its own.
   */
  lemma CreateEffects(db: Tables, dto: CreateTicketDto, now: int)
    requires db.Valid()
    requires CreateStep(db, dto, now).result.Success?
    ensures var s := CreateStep(db, dto, now);
      var client := s.after.clients[dto.clientPhone];
      && dto.clientPhone in s.after.clients
      && (dto.clientPhone in db.clients ==> s.after.clients == db.clients && client == db.clients[dto.clientPhone])
      && (dto.clientPhone !in db.clients ==>
            client == Client(db.nextId, dto.clientName, dto.clientPhone, dto.clientState)
            && s.after.clients == db.clients[dto.clientPhone := client])
      && s.result.value == Reservation(dto.numbers, client.name)
      && s.after.raffles == db.raffles
      && |s.after.tickets| == |db.tickets| + |dto.numbers|
      && s.after.tickets[..|db.tickets|] == db.tickets
      && forall k :: 0 <= k < |dto.numbers| ==>
           var t := s.after.tickets[|db.tickets| + k];
           t.raffleId == dto.raffleId && t.clientId == client.id && t.ticketNumber == dto.numbers[k]
           && t.status == Reserved && t.clientState.None? && t.createdAt == now && t.paidAt.None?
  {
    var s := CreateStep(db, dto, now);
    assert s.after.tickets[..|db.tickets|] == db.tickets;
  }

  /** A successful reservation appends exactly the rows `NewTickets` describes, for some client and first identifier. */
  lemma CreateAppends(db: Tables, dto: CreateTicketDto, now: int) returns (clientId: Id, firstId: Id)
    requires db.Valid()
    requires CreateStep(db, dto, now).result.Success?
    ensures CreateStep(db, dto, now).after.tickets == db.tickets + NewTickets(dto.numbers, dto.raffleId, clientId, None, firstId, now)
    ensures CreateStep(db, dto, now).after.raffles == db.raffles
  {
    var (client, db1) := ResolveClient(db, dto.clientName, dto.clientPhone, dto.clientState);
    clientId, firstId := client.id, db1.nextId;
  }

  /** `HasNumber` over a concatenation. */
  lemma HasNumberAppend(a: seq<Ticket>, b: seq<Ticket>, raffleId: Id, n: int)
    ensures HasNumber(a + b, raffleId, n) <==> HasNumber(a, raffleId, n) || HasNumber(b, raffleId, n)
  {
    if HasNumber(a + b, raffleId, n) {
      var k :| 0 <= k < |a + b| && (a + b)[k].raffleId == raffleId && (a + b)[k].ticketNumber == n;
      if k >= |a| { assert (a + b)[k] == b[k - |a|]; }
    }
    if HasNumber(a, raffleId, n) {
      var k :| 0 <= k < |a| && a[k].raffleId == raffleId && a[k].ticketNumber == n;
      assert (a + b)[k] == a[k];
    }
    if HasNumber(b, raffleId, n) {
      var k :| 0 <= k < |b| && b[k].raffleId == raffleId && b[k].ticketNumber == n;
      assert (a + b)[|a| + k] == b[k];
    }
  }

  /** After a successful reservation every requested number is occupied, and other raffles' occupancy is unchanged. */
  lemma CreateOccupies(db: Tables, dto: CreateTicketDto, now: int, other: Id)
    requires db.Valid()
    requires CreateStep(db, dto, now).result.Success?
    ensures forall n :: n in dto.numbers ==> n in GetOccupiedTickets(CreateStep(db, dto, now).after.tickets, dto.raffleId)
    ensures other != dto.raffleId ==>
      forall n :: n in GetOccupiedTickets(CreateStep(db, dto, now).after.tickets, other) <==>
        n in GetOccupiedTickets(db.tickets, other)
  {
    var after := CreateStep(db, dto, now).after;
    CreateEffects(db, dto, now);
    var added := after.tickets[|db.tickets|..];
    assert after.tickets == db.tickets + added;
    forall n | n in dto.numbers ensures HasNumber(after.tickets, dto.raffleId, n) {
      var k :| 0 <= k < |dto.numbers| && dto.numbers[k] == n;
      assert after.tickets[|db.tickets| + k].raffleId == dto.raffleId;
    }
    forall n ensures HasNumber(after.tickets, other, n) <==> (other == dto.raffleId && n in dto.numbers) || HasNumber(db.tickets, other, n) {
      HasNumberAppend(db.tickets, added, other, n);
      if HasNumber(added, other, n) {
        var k :| 0 <= k < |added| && added[k].raffleId == other && added[k].ticketNumber == n;
        assert added[k] == after.tickets[|db.tickets| + k];
      }
    }
  }

  /** Appending tickets for free, pairwise distinct numbers of one raffle keeps numbers unique. */
  lemma {:induction false} AppendFreshKeepsUnique(tickets: seq<Ticket>, added: seq<Ticket>, raffleId: Id)
    requires NumbersUnique(tickets)
    requires forall k :: 0 <= k < |added| ==> added[k].raffleId == raffleId && !HasNumber(tickets, raffleId, added[k].ticketNumber)
    requires forall i, j :: 0 <= i < j < |added| ==> added[i].ticketNumber != added[j].ticketNumber
    ensures NumbersUnique(tickets + added)
  {
    var all := tickets + added;
    forall i, j | 0 <= i < j < |all| && all[i].raffleId == all[j].raffleId
      ensures all[i].ticketNumber != all[j].ticketNumber
    {
      if j >= |tickets| {
        assert all[j] == added[j - |tickets|];
        if i < |tickets| {
          assert all[i] == tickets[i];
          assert !HasNumber(tickets, raffleId, all[j].ticketNumber);
        } else {
          assert all[i] == added[i - |tickets|];
        }
      }
    }
  }

  /** A reservation of pairwise distinct numbers keeps ticket numbers unique within every raffle. */
  lemma CreateKeepsNumbersUnique(db: Tables, dto: CreateTicketDto, now: int)
    requires db.Valid() && NumbersUnique(db.tickets) && Distinct(dto.numbers)
    ensures NumbersUnique(CreateStep(db, dto, now).after.tickets)
  {
    if CreateStep(db, dto, now).result.Success? {
      CreateSucceedsIff(db, dto, now);
      var clientId, firstId := CreateAppends(db, dto, now);
      var added := NewTickets(dto.numbers, dto.raffleId, clientId, None, firstId, now);
      forall k | 0 <= k < |added| ensures !HasNumber(db.tickets, dto.raffleId, added[k].ticketNumber) {
        assert dto.numbers[k] in dto.numbers;
      }
      AppendFreshKeepsUnique(db.tickets, added, dto.raffleId);
    }
  }

  /**
   * The occupancy check compares against stored tickets only, so a request
   * naming one free number twice reserves it twice.
   */
  lemma RepeatedNumberReservedTwice()
    ensures var db := Tables([Raffle(0, "Rifa", "", None, "rifa", 10, 100, Some(0), Some(10), 0)], map[], [], 1);
      && db.Valid()
      && var s := CreateStep(db, CreateTicketDto(0, [5, 5], "Ana", "5551234", None), 5);
      && s.result.Success?
      && |s.after.tickets| == 2
      && s.after.tickets[0].ticketNumber == s.after.tickets[1].ticketNumber == 5
      && !NumbersUnique(s.after.tickets)
  {
    var db := Tables([Raffle(0, "Rifa", "", None, "rifa", 10, 100, Some(0), Some(10), 0)], map[], [], 1);
    var dto := CreateTicketDto(0, [5, 5], "Ana", "5551234", None);
    assert FindRaffle(db.raffles, 0) == Some(db.raffles[0]);
    assert forall n :: n in dto.numbers ==> n == 5;
    CreateSucceedsIff(db, dto, 5);
    var clientId, firstId := CreateAppends(db, dto, 5);
    var added := NewTickets(dto.numbers, 0, clientId, None, firstId, 5);
    assert [] + added == added;
    assert added[0].ticketNumber == 5 && added[1].ticketNumber == 5 && added[0].raffleId == added[1].raffleId;
  }

  /** A reservation for an open raffle, all in range, of which some numbers are held, is refused with those numbers. */
  lemma TakenRefused(db: Tables, dto: CreateTicketDto, now: int)
    requires db.Valid()
    requires FindRaffle(db.raffles, dto.raffleId).Some?
    requires var raffle := FindRaffle(db.raffles, dto.raffleId).value;
      && raffle.startDate.Some? && raffle.endDate.Some? && raffle.startDate.value <= now <= raffle.endDate.value
      && OutOfRange(dto.numbers, raffle.totalTickets) == []
    requires Taken(db.tickets, dto.raffleId, dto.numbers) != []
    ensures CreateStep(db, dto, now) == Step(Failure(NumbersTaken(Taken(db.tickets, dto.raffleId, dto.numbers))), db)
  {
    var raffle := FindRaffle(db.raffles, dto.raffleId).value;
    assert |OutOfRange(dto.numbers, raffle.totalTickets)| == 0;
    assert |Taken(db.tickets, dto.raffleId, dto.numbers)| > 0;
    assert CreateCheck(db, dto, now) == Some(NumbersTaken(Taken(db.tickets, dto.raffleId, dto.numbers)));
  }

  /** Repeating a successful, non-empty reservation at the same moment is refused: its numbers are now taken. */
  lemma CreateTwiceRefused(db: Tables, dto: CreateTicketDto, now: int)
    requires db.Valid()
    requires CreateStep(db, dto, now).result.Success? && dto.numbers != []
    ensures var after := CreateStep(db, dto, now).after;
      var again := CreateStep(after, dto, now);
      again.result.Failure? && again.result.error.NumbersTaken? && again.after == after
  {
    var after := CreateStep(db, dto, now).after;
    CreateSucceedsIff(db, dto, now);
    var clientId, firstId := CreateAppends(db, dto, now);
    var added := NewTickets(dto.numbers, dto.raffleId, clientId, None, firstId, now);
    assert HasNumber(added, dto.raffleId, dto.numbers[0]) by {
      assert added[0].raffleId == dto.raffleId && added[0].ticketNumber == dto.numbers[0];
    }
    HasNumberAppend(db.tickets, added, dto.raffleId, dto.numbers[0]);
    assert dto.numbers[0] in dto.numbers;
    var taken := Taken(after.tickets, dto.raffleId, dto.numbers);
    assert dto.numbers[0] in taken;
    var raffle := FindRaffle(db.raffles, dto.raffleId).value;
    assert FindRaffle(after.raffles, dto.raffleId) == Some(raffle);
    assert raffle.startDate.Some? && raffle.endDate.Some?;
    assert raffle.startDate.value <= now <= raffle.endDate.value;
    assert OutOfRange(dto.numbers, raffle.totalTickets) == [];
    TakenRefused(after, dto, now);
  }

  /* ------------------------------------------------------------ createMany */

  /**
   * The bulk path checks occupancy only: it succeeds exactly when no number
   * is taken and either there is nothing to insert or the raffle exists,
   * whatever the raffle's dates, the time or the range.
   */
  lemma CreateManySucceedsIff(db: Tables, req: BulkRequest, now: int)
    requires db.Valid()
    ensures CreateManyStep(db, req, now).result.Success? <==>
      && (forall n :: n in req.ticketNumbers ==> !HasNumber(db.tickets, req.raffleId, n))
      && (req.ticketNumbers == [] || FindRaffle(db.raffles, req.raffleId).Some?)
  {
  }

  /**
   * The created rows: one RESERVED ticket per number carrying the request's
   * state or `Desconocido`, for the client stored under the phone, who is
   * created without a state when new.
   */
  lemma CreateManyEffects(db: Tables, req: BulkRequest, now: int)
    requires db.Valid()
    requires CreateManyStep(db, req, now).result.Success?
    ensures var s := CreateManyStep(db, req, now);
      var created := s.result.value;
      && req.clientPhone in s.after.clients
      && (req.clientPhone !in db.clients ==>
            s.after.clients[req.clientPhone] == Client(db.nextId, req.clientName, req.clientPhone, None))
      && (req.clientPhone in db.clients ==> s.after.clients == db.clients)
      && s.after.tickets == db.tickets + created
      && |created| == |req.ticketNumbers|
      && forall k :: 0 <= k < |created| ==>
           && created[k].raffleId == req.raffleId && created[k].ticketNumber == req.ticketNumbers[k]
           && created[k].clientId == s.after.clients[req.clientPhone].id
           && created[k].status == Reserved && created[k].createdAt == now && created[k].paidAt.None?
           && created[k].clientState == Some(if req.clientState.Some? && req.clientState.value != [] then req.clientState.value else UnknownState)
  {
  }

  /** When the insert fails on a missing raffle, no ticket is written but the client created for the request stays. */
  lemma CreateManyKeepsClientOnFailure(db: Tables, req: BulkRequest, now: int)
    requires db.Valid()
    requires CreateManyStep(db, req, now).result == Failure(RaffleMissing)
    ensures var after := CreateManyStep(db, req, now).after;
      && after.tickets == db.tickets
      && req.clientPhone in after.clients
      && (req.clientPhone !in db.clients ==>
            after.clients == db.clients[req.clientPhone := Client(db.nextId, req.clientName, req.clientPhone, None)])
  {
  }

  /** A bulk reservation of pairwise distinct numbers keeps ticket numbers unique. */
  lemma CreateManyKeepsNumbersUnique(db: Tables, req: BulkRequest, now: int)
    requires db.Valid() && NumbersUnique(db.tickets) && Distinct(req.ticketNumbers)
    ensures NumbersUnique(CreateManyStep(db, req, now).after.tickets)
  {
    var s := CreateManyStep(db, req, now);
    if s.result.Success? {
      CreateManySucceedsIff(db, req, now);
      CreateManyEffects(db, req, now);
      forall k | 0 <= k < |s.result.value|
        ensures !HasNumber(db.tickets, req.raffleId, s.result.value[k].ticketNumber)
      {
        assert req.ticketNumbers[k] in req.ticketNumbers;
      }
      AppendFreshKeepsUnique(db.tickets, s.result.value, req.raffleId);
    }
  }

  /* ------------------------------------------------------------ markAsPaid */

  /** Occupancy reads only each ticket's raffle and number: every status counts. */
  lemma {:induction false} OccupancyIgnoresStatus(a: seq<Ticket>, b: seq<Ticket>, raffleId: Id)
    requires |a| == |b|
    requires forall k :: 0 <= k < |a| ==> a[k].raffleId == b[k].raffleId && a[k].ticketNumber == b[k].ticketNumber
    ensures GetOccupiedTickets(a, raffleId) == GetOccupiedTickets(b, raffleId)
  {
    if a != [] {
      OccupancyIgnoresStatus(a[1..], b[1..], raffleId);
    }
  }

  /** Paying a ticket leaves every raffle's occupied numbers as they were. */
  lemma MarkAsPaidKeepsOccupancy(db: Tables, id: Id, now: int, raffleId: Id)
    requires db.Valid()
    ensures GetOccupiedTickets(MarkAsPaidStep(db, id, now).after.tickets, raffleId) == GetOccupiedTickets(db.tickets, raffleId)
  {
    OccupancyIgnoresStatus(MarkAsPaidStep(db, id, now).after.tickets, db.tickets, raffleId);
  }

  /** Paying keeps numbers unique. */
  lemma MarkAsPaidKeepsNumbersUnique(db: Tables, id: Id, now: int)
    requires db.Valid() && NumbersUnique(db.tickets)
    ensures NumbersUnique(MarkAsPaidStep(db, id, now).after.tickets)
  {
  }

  /** Nothing guards against paying twice: the second payment succeeds and moves `paidAt` to its own time. */
  lemma MarkAsPaidTwice(db: Tables, id: Id, first: int, second: int)
    requires db.Valid()
    requires MarkAsPaidStep(db, id, first).result.Success?
    ensures var s := MarkAsPaidStep(MarkAsPaidStep(db, id, first).after, id, second);
      s.result.Success? && s.result.value.status == Paid && s.result.value.paidAt == Some(second)
  {
    var s1 := MarkAsPaidStep(db, id, first);
    var k :| 0 <= k < |db.tickets| && db.tickets[k].id == id
      && s1.result.value == db.tickets[k].(status := Paid, paidAt := Some(first))
      && s1.after == db.(tickets := db.tickets[k := s1.result.value]);
    assert s1.after.tickets[k].id == id;
  }

  /* ----------------------------------------------------------- findByPhone */

  /** Every ticket of a client in `ids`, when `ids` holds every ticket's client, is every ticket. */
  lemma {:induction false} OwnedByAll(tickets: seq<Ticket>, ids: set<Id>)
    requires forall k :: 0 <= k < |tickets| ==> tickets[k].clientId in ids
    ensures OwnedBy(tickets, ids) == tickets
  {
    if tickets != [] {
      OwnedByAll(tickets[1..], ids);
    }
  }

  /** A search string without digits matches every phone, so every ticket of the store is listed. */
  lemma FindByPhoneWithoutDigits(db: Tables, phone: string)
    requires db.Valid()
    requires Text.KeepDigits(phone) == []
    ensures multiset(Rows(FindByPhone(db, phone), DetailTicket)) == multiset(db.tickets)
  {
    forall p | p in db.clients ensures Text.Contains(p, Text.KeepDigits(phone)) {
      assert Text.KeepDigits(phone) <= p;
    }
    assert MatchingClients(db, phone) == ClientIds(db.clients);
    OwnedByAll(db.tickets, MatchingClients(db, phone));
  }

  /* -------------------------------------------------------- getDailySales */

  /** The revenue of the `n` consecutive days starting at `first`, day by day. */
  function RangeRevenue(tickets: seq<Ticket>, raffles: seq<Raffle>, first: int, n: nat): int
  {
    if n == 0 then 0 else RangeRevenue(tickets, raffles, first, n - 1) + DayRevenue(tickets, raffles, first + n - 1)
  }

  /** The revenue of the tickets created on a day in `first .. first + n - 1`, ticket by ticket. */
  function WindowRevenue(tickets: seq<Ticket>, raffles: seq<Raffle>, first: int, n: nat): int
  {
    if tickets == [] then 0
    else
      var t := tickets[|tickets| - 1];
      WindowRevenue(tickets[..|tickets| - 1], raffles, first, n)
        + (if first <= DayOf(t.createdAt) < first + n then PriceOf(raffles, t) else 0)
  }

  lemma {:induction false} RangeRevenueEmpty(raffles: seq<Raffle>, first: int, n: nat)
    ensures RangeRevenue([], raffles, first, n) == 0
  {
    if n > 0 {
      RangeRevenueEmpty(raffles, first, n - 1);
    }
  }

  lemma {:induction false} RangeRevenueLast(tickets: seq<Ticket>, raffles: seq<Raffle>, first: int, n: nat)
    requires tickets != []
    ensures var t := tickets[|tickets| - 1];
      RangeRevenue(tickets, raffles, first, n) == RangeRevenue(tickets[..|tickets| - 1], raffles, first, n)
        + (if first <= DayOf(t.createdAt) < first + n then PriceOf(raffles, t) else 0)
  {
    if n > 0 {
      RangeRevenueLast(tickets, raffles, first, n - 1);
    }
  }

  /**
   * The buckets add up: the sum of the daily totals over `n` consecutive days
   * is the revenue of exactly the tickets created within those days.
   */
  lemma {:induction false} BucketsAddUp(tickets: seq<Ticket>, raffles: seq<Raffle>, first: int, n: nat)
    ensures RangeRevenue(tickets, raffles, first, n) == WindowRevenue(tickets, raffles, first, n)
  {
    if tickets == [] {
      RangeRevenueEmpty(raffles, first, n);
    } else {
      RangeRevenueLast(tickets, raffles, first, n);
      BucketsAddUp(tickets[..|tickets| - 1], raffles, first, n);
    }
  }

  /** The sum of the totals of `sales`. */
  function Total(sales: seq<DailySales>): int
  {
    if sales == [] then 0 else Total(sales[..|sales| - 1]) + sales[|sales| - 1].total
  }

  /**
   * The rollup adds up: when bucket `k` holds the revenue of day `first + k`,
   * the buckets' total is the revenue of exactly the tickets created within
   * those days; a ticket of any other day is in no bucket.
   */
  lemma {:induction false} SalesTotal(sales: seq<DailySales>, tickets: seq<Ticket>, raffles: seq<Raffle>, first: int)
    requires forall k :: 0 <= k < |sales| ==> sales[k] == DailySales(first + k, DayRevenue(tickets, raffles, first + k))
    ensures Total(sales) == WindowRevenue(tickets, raffles, first, |sales|)
  {
    SalesTotalRange(sales, tickets, raffles, first);
    BucketsAddUp(tickets, raffles, first, |sales|);
  }

  lemma {:induction false} SalesTotalRange(sales: seq<DailySales>, tickets: seq<Ticket>, raffles: seq<Raffle>, first: int)
    requires forall k :: 0 <= k < |sales| ==> sales[k] == DailySales(first + k, DayRevenue(tickets, raffles, first + k))
    ensures Total(sales) == RangeRevenue(tickets, raffles, first, |sales|)
  {
    if sales != [] {
      SalesTotalRange(sales[..|sales| - 1], tickets, raffles, first);
    }
  }
}
