/**
 * The relational store both services share: the Raffle, Client and Ticket
 * tables, with the identifiers the database generates drawn from one counter.
 * `Tables` is the value of the store at one moment; `Database` is the mutable
 * store the services change step by step.
 */
module Store {
  import opened Wrappers

  /** A generated row identifier. */
  type Id = nat

  /** The closed status enumeration of a ticket. */
  datatype Status = Reserved | Paid

  /** Dates and timestamps are milliseconds since the epoch; prices are whole cents. */
  datatype Raffle = Raffle(
    id: Id,
    name: string,
    description: string,
    imageUrl: Option<string>,
    slug: string,
    ticketPrice: int,
    totalTickets: int,
    startDate: Option<int>,
    endDate: Option<int>,
    createdAt: int)

  datatype Client = Client(id: Id, name: string, phone: string, state: Option<string>)

  datatype Ticket = Ticket(
    id: Id,
    raffleId: Id,
    clientId: Id,
    ticketNumber: int,
    status: Status,
    clientState: Option<string>,
    createdAt: int,
    paidAt: Option<int>)

  /** `findUnique({ where: { id } })`: the raffle with identifier `id`, if the table holds one. */
  function FindRaffle(raffles: seq<Raffle>, id: Id): (r: Option<Raffle>)
    ensures r.Some? ==> r.value in raffles && r.value.id == id
    ensures r.None? ==> forall k :: 0 <= k < |raffles| ==> raffles[k].id != id
  {
    if raffles == [] then None
    else if raffles[0].id == id then Some(raffles[0])
    else FindRaffle(raffles[1..], id)
  }

  /** The identifiers of all stored clients. */
  function ClientIds(clients: map<string, Client>): set<Id>
  {
    set p | p in clients :: clients[p].id
  }

  /** The client with identifier `id`, if one is stored. */
  function ClientById(clients: map<string, Client>, id: Id): (r: Option<Client>)
    requires forall p :: p in clients ==> clients[p].phone == p
    requires forall p, q :: p in clients && q in clients && p != q ==> clients[p].id != clients[q].id
    ensures r.Some? <==> id in ClientIds(clients)
    ensures r.Some? ==> r.value.phone in clients && clients[r.value.phone] == r.value && r.value.id == id
  {
    var index := map p | p in clients :: clients[p].id := clients[p];
    if id in index then
      var p :| p in clients && clients[p].id == id;
      assert index[id] == clients[p];
      Some(index[id])
    else None
  }

  /** The contents of the store. */
  datatype Tables = Tables(raffles: seq<Raffle>, clients: map<string, Client>, tickets: seq<Ticket>, nextId: Id)
  {
    /**
     * What the database schema guarantees: generated identifiers are unique and
     * below the counter, slugs and phones are unique, and every ticket refers to
     * a stored raffle and a stored client.
     */
    ghost predicate Valid()
    {
      && (forall k :: 0 <= k < |raffles| ==> raffles[k].id < nextId)
      && (forall i, j :: 0 <= i < j < |raffles| ==> raffles[i].id != raffles[j].id && raffles[i].slug != raffles[j].slug)
      && (forall p :: p in clients ==> clients[p].phone == p && clients[p].id < nextId)
      && (forall p, q :: p in clients && q in clients && p != q ==> clients[p].id != clients[q].id)
      && (forall k :: 0 <= k < |tickets| ==>
            && tickets[k].id < nextId
            && FindRaffle(raffles, tickets[k].raffleId).Some?
            && tickets[k].clientId in ClientIds(clients))
      && (forall i, j :: 0 <= i < j < |tickets| ==> tickets[i].id != tickets[j].id)
    }
  }

  /** The mutable store: one field per table, and the identifier counter. */
  class Database {
    var raffles: seq<Raffle>
    var clients: map<string, Client>
    var tickets: seq<Ticket>
    var nextId: Id

    function Value(): Tables
      reads this
    {
      Tables(raffles, clients, tickets, nextId)
    }

    ghost predicate Valid()
      reads this
    {
      Value().Valid()
    }

    constructor ()
      ensures Valid()
      ensures Value() == Tables([], map[], [], 0)
    {
      raffles, clients, tickets, nextId := [], map[], [], 0;
    }
  }
}
