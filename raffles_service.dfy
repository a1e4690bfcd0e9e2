/**
 * The raffle registry of `raffles.service.ts`: creating a raffle under a slug
 * generated from its name and the creation time, looking raffles up by slug
 * or identifier, listing them newest first with their ticket counts, and
 * deleting one.
 */
module Raffles {
  import opened Wrappers
  import opened Store
  import Sorting
  import Text

  /** The body of a raffle creation request, after validation (dates already parsed to timestamps). */
  datatype CreateRaffleDto = CreateRaffleDto(
    name: string,
    description: string,
    imageUrl: Option<string>,
    ticketPrice: int,
    totalTickets: int,
    startDate: int,
    endDate: int,
    slug: string)

  datatype RaffleError =
    | SlugTaken      // the unique constraint on the slug column rejects the insert
    | RaffleNotFound // the raffle to delete does not exist
    | HasTickets     // the delete is refused while tickets refer to the raffle

  /** A raffle of the listing, with the number of its tickets in any status. */
  datatype RaffleWithCount = RaffleWithCount(raffle: Raffle, ticketCount: nat)

  /** The slug the server generates: the name lowercased, spaces turned into `-`, then `-` and the timestamp. */
  function ServerSlug(name: string, now: nat): (r: string)
    ensures |r| == |name| + 1 + |Text.NatToString(now)|
    ensures forall i :: 0 <= i < |name| ==>
      r[i] == (if name[i] == ' ' then '-' else Text.LowerChar(name[i]))
    ensures r[|name|] == '-'
    ensures r[|name| + 1..] == Text.NatToString(now)
    ensures ' ' !in r && forall i :: 0 <= i < |r| ==> !Text.IsUpper(r[i])
  {
    var r := Text.ReplaceAll(Text.Lower(name), ' ', '-') + "-" + Text.NatToString(now);
    assert r[|name| + 1..] == Text.NatToString(now);
    assert forall i :: |name| < i < |r| ==> Text.IsDigit(r[i]) by {
      forall i | |name| < i < |r| ensures Text.IsDigit(r[i]) {
        assert r[i] == Text.NatToString(now)[i - |name| - 1];
      }
    }
    r
  }

  /** The timestamp can be read back from the end of a generated slug. */
  lemma SlugTimestamp(name: string, now: nat)
    ensures Text.AllDigits(ServerSlug(name, now)[|name| + 1..])
    ensures Text.DigitsValue(ServerSlug(name, now)[|name| + 1..]) == now
  {
    Text.DigitsValueOfNatToString(now);
  }

  /** One name at two different moments gets two different slugs. */
  lemma SlugsDifferInTime(name: string, t1: nat, t2: nat)
    requires t1 != t2
    ensures ServerSlug(name, t1) != ServerSlug(name, t2)
  {
    if ServerSlug(name, t1) == ServerSlug(name, t2) {
      SlugTimestamp(name, t1);
      SlugTimestamp(name, t2);
      assert false;
    }
  }

  /** Two names that differ only in space against `-` get one slug at the same moment. */
  lemma SpaceAndDashCollide(now: nat)
    ensures ServerSlug("x 1", now) == ServerSlug("x-1", now)
  {
    assert Text.Lower("x 1") == "x 1";
    assert Text.Lower("x-1") == "x-1";
  }

  /** `findOneBySlug`: the raffle with this slug, if any. */
  function FindOneBySlug(raffles: seq<Raffle>, slug: string): (r: Option<Raffle>)
    ensures r.Some? ==> r.value in raffles && r.value.slug == slug
    ensures r.None? ==> forall k :: 0 <= k < |raffles| ==> raffles[k].slug != slug
  {
    if raffles == [] then None
    else if raffles[0].slug == slug then Some(raffles[0])
    else FindOneBySlug(raffles[1..], slug)
  }

  /** The raffle `create` inserts: the request's fields, the generated slug in place of the request's, a fresh identifier. */
  function NewRaffle(dto: CreateRaffleDto, id: Id, now: nat): Raffle
  {
    Raffle(id, dto.name, dto.description, dto.imageUrl, ServerSlug(dto.name, now), dto.ticketPrice,
           dto.totalTickets, Some(dto.startDate), Some(dto.endDate), now)
  }

  /** `create`: insert the raffle, or fail when its generated slug is already stored. */
  function CreateStep(db: Tables, dto: CreateRaffleDto, now: nat): (r: (Result<Raffle, RaffleError>, Tables))
    requires db.Valid()
    ensures r.1.Valid()
    ensures r.0.Failure? ==> r.0.error == SlugTaken && r.1 == db
    ensures r.0.Failure? <==> exists k :: 0 <= k < |db.raffles| && db.raffles[k].slug == ServerSlug(dto.name, now)
    ensures r.0.Success? ==> r.1 == db.(raffles := db.raffles + [r.0.value], nextId := db.nextId + 1)
  {
    var slug := ServerSlug(dto.name, now);
    if FindOneBySlug(db.raffles, slug).Some? then (Failure(SlugTaken), db)
    else
      var raffle := NewRaffle(dto, db.nextId, now);
      AppendRaffleValid(db, raffle);
      (Success(raffle), db.(raffles := db.raffles + [raffle], nextId := db.nextId + 1))
  }

  /** Appending a raffle with the next identifier and a slug no stored raffle has keeps the store valid. */
  lemma AppendRaffleValid(db: Tables, raffle: Raffle)
    requires db.Valid()
    requires raffle.id == db.nextId
    requires forall k :: 0 <= k < |db.raffles| ==> db.raffles[k].slug != raffle.slug
    ensures db.(raffles := db.raffles + [raffle], nextId := db.nextId + 1).Valid()
  {
    var rs := db.raffles + [raffle];
    assert forall k :: 0 <= k < |db.raffles| ==> rs[k] == db.raffles[k];
    assert rs[|db.raffles|] == raffle;
    forall k | 0 <= k < |db.tickets| ensures FindRaffle(rs, db.tickets[k].raffleId).Some? {
      var x := FindRaffle(db.raffles, db.tickets[k].raffleId).value;
      assert x in rs;
    }
  }

  /** The position of the raffle with identifier `id`, if any. */
  function IndexOfRaffle(raffles: seq<Raffle>, id: Id): (r: Option<nat>)
    ensures r.Some? ==> r.value < |raffles| && raffles[r.value].id == id
    ensures r.None? ==> forall k :: 0 <= k < |raffles| ==> raffles[k].id != id
  {
    if raffles == [] then None
    else if raffles[0].id == id then Some(0)
    else match IndexOfRaffle(raffles[1..], id)
      case None => None
      case Some(k) => Some(k + 1)
  }

  predicate Referenced(tickets: seq<Ticket>, id: Id)
  {
    exists k :: 0 <= k < |tickets| && tickets[k].raffleId == id
  }

  /** The table without the row at `k`. */
  function RemoveAt<T>(s: seq<T>, k: nat): (r: seq<T>)
    requires k < |s|
    ensures |r| == |s| - 1
    ensures forall x :: x in r ==> x in s
    ensures forall j :: 0 <= j < |s| && j != k ==> s[j] in r
  {
    var r := s[..k] + s[k + 1..];
    assert forall j :: 0 <= j < |s| && j != k ==> s[j] == (if j < k then r[j] else r[j - 1]);
    r
  }

  /** `remove`: delete the raffle; a missing raffle, or one that tickets still refer to, is an error. */
  function RemoveStep(db: Tables, id: Id): (r: (Result<Raffle, RaffleError>, Tables))
    requires db.Valid()
    ensures r.1.Valid()
    ensures r.0.Failure? ==> r.1 == db
    ensures r.0.Failure? && r.0.error == RaffleNotFound <==> forall k :: 0 <= k < |db.raffles| ==> db.raffles[k].id != id
    ensures r.0.Success? <==> FindRaffle(db.raffles, id).Some? && !Referenced(db.tickets, id)
  {
    match IndexOfRaffle(db.raffles, id)
    case None => (Failure(RaffleNotFound), db)
    case Some(k) =>
      if Referenced(db.tickets, id) then (Failure(HasTickets), db)
      else
        var after := db.(raffles := RemoveAt(db.raffles, k));
        RemoveKeepsValid(db, k);
        (Success(db.raffles[k]), after)
  }

  lemma RemoveKeepsValid(db: Tables, k: nat)
    requires db.Valid() && k < |db.raffles| && !Referenced(db.tickets, db.raffles[k].id)
    ensures db.(raffles := RemoveAt(db.raffles, k)).Valid()
  {
    var rest := RemoveAt(db.raffles, k);
    RemoveAtKeepsDistinct(db.raffles, k);
    forall t | 0 <= t < |db.tickets| ensures FindRaffle(rest, db.tickets[t].raffleId).Some? {
      RemoveKeepsReference(db.raffles, k, db.tickets[t].raffleId);
    }
  }

  lemma RemoveAtKeepsDistinct(raffles: seq<Raffle>, k: nat)
    requires k < |raffles|
    requires forall i, j :: 0 <= i < j < |raffles| ==> raffles[i].id != raffles[j].id && raffles[i].slug != raffles[j].slug
    ensures var rest := RemoveAt(raffles, k);
      forall i, j :: 0 <= i < j < |rest| ==> rest[i].id != rest[j].id && rest[i].slug != rest[j].slug
  {
    var rest := RemoveAt(raffles, k);
    assert rest == raffles[..k] + raffles[k + 1..];
    forall i, j | 0 <= i < j < |rest| ensures rest[i].id != rest[j].id && rest[i].slug != rest[j].slug {
      var i', j' := if i < k then i else i + 1, if j < k then j else j + 1;
      assert rest[i] == raffles[i'] && rest[j] == raffles[j'];
    }
  }

  lemma RemoveKeepsReference(raffles: seq<Raffle>, k: nat, id: Id)
    requires k < |raffles| && raffles[k].id != id && FindRaffle(raffles, id).Some?
    ensures FindRaffle(RemoveAt(raffles, k), id).Some?
  {
    var x := FindRaffle(raffles, id).value;
    var j :| 0 <= j < |raffles| && raffles[j] == x;
    assert x in RemoveAt(raffles, k);
  }

  /** The number of tickets of the raffle, in any status. */
  function TicketCount(tickets: seq<Ticket>, id: Id): nat
  {
    if tickets == [] then 0
    else (if tickets[0].raffleId == id then 1 else 0) + TicketCount(tickets[1..], id)
  }

  /** Newest first: the sort key is the negated creation time. */
  function NewestFirst(r: Raffle): int { -r.createdAt }

  function WithCounts(raffles: seq<Raffle>, tickets: seq<Ticket>): (r: seq<RaffleWithCount>)
    ensures |r| == |raffles|
    ensures forall k :: 0 <= k < |r| ==> r[k] == RaffleWithCount(raffles[k], TicketCount(tickets, raffles[k].id))
  {
    if raffles == [] then []
    else [RaffleWithCount(raffles[0], TicketCount(tickets, raffles[0].id))] + WithCounts(raffles[1..], tickets)
  }

  function RafflesOf(rows: seq<RaffleWithCount>): (r: seq<Raffle>)
    ensures |r| == |rows|
    ensures forall k :: 0 <= k < |rows| ==> r[k] == rows[k].raffle
  {
    if rows == [] then [] else [rows[0].raffle] + RafflesOf(rows[1..])
  }

  /** The raffles of the counted rows are the raffles counted. */
  lemma {:induction false} RafflesOfWithCounts(raffles: seq<Raffle>, tickets: seq<Ticket>)
    ensures RafflesOf(WithCounts(raffles, tickets)) == raffles
  {
    if raffles != [] {
      RafflesOfWithCounts(raffles[1..], tickets);
      assert WithCounts(raffles, tickets)[1..] == WithCounts(raffles[1..], tickets);
    }
  }

  /** Ordered by the negated creation time is newest first. */
  lemma NewestFirstOrder(sorted: seq<Raffle>)
    requires Sorting.SortedBy(sorted, NewestFirst)
    ensures forall i, j :: 0 <= i < j < |sorted| ==> sorted[i].createdAt >= sorted[j].createdAt
  {
    forall i, j | 0 <= i < j < |sorted| ensures sorted[i].createdAt >= sorted[j].createdAt {
      assert NewestFirst(sorted[i]) <= NewestFirst(sorted[j]);
    }
  }

  /** `findAll`: every raffle, newest first, each with its ticket count. */
  function FindAll(db: Tables): (r: seq<RaffleWithCount>)
    ensures multiset(RafflesOf(r)) == multiset(db.raffles)
    ensures forall i, j :: 0 <= i < j < |r| ==> r[i].raffle.createdAt >= r[j].raffle.createdAt
    ensures forall k :: 0 <= k < |r| ==> r[k].ticketCount == TicketCount(db.tickets, r[k].raffle.id)
  {
    var sorted := Sorting.SortBy(db.raffles, NewestFirst);
    RafflesOfWithCounts(sorted, db.tickets);
    NewestFirstOrder(sorted);
    WithCounts(sorted, db.tickets)
  }

  class RafflesService {
    const db: Database

    constructor (db: Database)
      ensures this.db == db
    {
      this.db := db;
    }

    /** `create`. */
    method Create(dto: CreateRaffleDto, now: nat) returns (r: Result<Raffle, RaffleError>)
      requires db.Valid()
      modifies db
      ensures (r, db.Value()) == CreateStep(old(db.Value()), dto, now)
      ensures db.Valid()
    {
      var slug := Text.ReplaceAll(Text.Lower(dto.name), ' ', '-') + "-" + Text.NatToString(now);
      if FindOneBySlug(db.raffles, slug).Some? {
        return Failure(SlugTaken);
      }
      var raffle := Raffle(db.nextId, dto.name, dto.description, dto.imageUrl, slug, dto.ticketPrice,
                           dto.totalTickets, Some(dto.startDate), Some(dto.endDate), now);
      db.raffles := db.raffles + [raffle];
      db.nextId := db.nextId + 1;
      return Success(raffle);
    }

    /** `remove`. */
    method Remove(id: Id) returns (r: Result<Raffle, RaffleError>)
      requires db.Valid()
      modifies db
      ensures (r, db.Value()) == RemoveStep(old(db.Value()), id)
      ensures db.Valid()
    {
      var k := IndexOfRaffle(db.raffles, id);
      if k.None? {
        return Failure(RaffleNotFound);
      }
      if Referenced(db.tickets, id) {
        return Failure(HasTickets);
      }
      r := Success(db.raffles[k.value]);
      db.raffles := db.raffles[..k.value] + db.raffles[k.value + 1..];
    }
  }
}
