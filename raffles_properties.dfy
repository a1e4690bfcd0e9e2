/**
 * What the raffle registry promises: a created raffle carries the request's
 * fields under the generated slug and can be found by that slug and by its
 * identifier; deleting deletes exactly one raffle; deleting a raffle right
 * after creating it restores the table.
 */
module RafflesProperties {
  import opened Wrappers
  import opened Store
  import opened Raffles

  /**
   * A created raffle holds the request's fields, the generated slug (whatever
   * slug the request carried), both dates, the creation time and an
   * identifier no stored raffle has.
   */
  lemma CreateCopiesRequest(db: Tables, dto: CreateRaffleDto, now: nat)
    requires db.Valid()
    requires CreateStep(db, dto, now).0.Success?
    ensures var r := CreateStep(db, dto, now).0.value;
      && r.name == dto.name && r.description == dto.description && r.imageUrl == dto.imageUrl
      && r.ticketPrice == dto.ticketPrice && r.totalTickets == dto.totalTickets
      && r.startDate == Some(dto.startDate) && r.endDate == Some(dto.endDate)
      && r.slug == ServerSlug(dto.name, now) && r.createdAt == now
      && forall k :: 0 <= k < |db.raffles| ==> db.raffles[k].id != r.id
  {
  }

  /** In a store whose slugs are distinct, the raffle stored under a slug is the one `findOneBySlug` returns. */
  lemma FindOneBySlugUnique(raffles: seq<Raffle>, k: nat)
    requires k < |raffles|
    requires forall i, j :: 0 <= i < j < |raffles| ==> raffles[i].slug != raffles[j].slug
    ensures FindOneBySlug(raffles, raffles[k].slug) == Some(raffles[k])
  {
    var r := FindOneBySlug(raffles, raffles[k].slug);
    var j :| 0 <= j < |raffles| && raffles[j] == r.value;
    assert j == k;
  }

  /** The same for identifiers and `findOne`. */
  lemma FindOneUnique(raffles: seq<Raffle>, k: nat)
    requires k < |raffles|
    requires forall i, j :: 0 <= i < j < |raffles| ==> raffles[i].id != raffles[j].id
    ensures FindRaffle(raffles, raffles[k].id) == Some(raffles[k])
  {
    var r := FindRaffle(raffles, raffles[k].id);
    var j :| 0 <= j < |raffles| && raffles[j] == r.value;
    assert j == k;
  }

  /** After a successful `create`, both `findOneBySlug` on the generated slug and `findOne` on the new identifier return the new raffle. */
  lemma CreateThenFind(db: Tables, dto: CreateRaffleDto, now: nat)
    requires db.Valid()
    requires CreateStep(db, dto, now).0.Success?
    ensures var (r, after) := CreateStep(db, dto, now);
      && FindOneBySlug(after.raffles, ServerSlug(dto.name, now)) == Some(r.value)
      && FindRaffle(after.raffles, r.value.id) == Some(r.value)
  {
    var (r, after) := CreateStep(db, dto, now);
    var last := |after.raffles| - 1;
    assert after.raffles[last] == r.value;
    FindOneBySlugUnique(after.raffles, last);
    FindOneUnique(after.raffles, last);
  }

  /** A successful `remove` deletes the raffle with that identifier and keeps every other raffle. */
  lemma RemoveDeletesExactly(db: Tables, id: Id)
    requires db.Valid()
    requires RemoveStep(db, id).0.Success?
    ensures var (r, after) := RemoveStep(db, id);
      && r.value.id == id && r.value in db.raffles
      && |after.raffles| == |db.raffles| - 1
      && (forall x :: x in after.raffles <==> x in db.raffles && x.id != id)
      && after.tickets == db.tickets && after.clients == db.clients
  {
    var k := IndexOfRaffle(db.raffles, id).value;
    assert RemoveStep(db, id) == (Success(db.raffles[k]), db.(raffles := RemoveAt(db.raffles, k)));
    RemoveAtById(db.raffles, k);
  }

  /** With distinct identifiers, removing the row at `k` removes exactly the raffle with its identifier. */
  lemma RemoveAtById(raffles: seq<Raffle>, k: nat)
    requires k < |raffles|
    requires forall i, j :: 0 <= i < j < |raffles| ==> raffles[i].id != raffles[j].id
    ensures forall x :: x in RemoveAt(raffles, k) <==> x in raffles && x.id != raffles[k].id
  {
    var rest := RemoveAt(raffles, k);
    assert rest == raffles[..k] + raffles[k + 1..];
    forall x | x in rest ensures x.id != raffles[k].id {
      var j :| 0 <= j < |rest| && rest[j] == x;
      if j < k { assert x == raffles[j]; } else { assert x == raffles[j + 1]; }
    }
  }

  /** Deleting a raffle right after creating it succeeds and leaves the raffle table as it was. */
  lemma CreateThenRemove(db: Tables, dto: CreateRaffleDto, now: nat)
    requires db.Valid()
    requires CreateStep(db, dto, now).0.Success?
    ensures var (r, after) := CreateStep(db, dto, now);
      var (removed, restored) := RemoveStep(after, r.value.id);
      removed == r && restored.raffles == db.raffles
  {
    var (r, after) := CreateStep(db, dto, now);
    var id := r.value.id;
    assert !Referenced(after.tickets, id) by {
      forall t | 0 <= t < |after.tickets| ensures after.tickets[t].raffleId != id {
        var x := FindRaffle(db.raffles, db.tickets[t].raffleId).value;
        var j :| 0 <= j < |db.raffles| && db.raffles[j] == x;
      }
    }
    assert after.raffles[|db.raffles|].id == id;
    var k := IndexOfRaffle(after.raffles, id).value;
    assert k == |db.raffles|;
    assert RemoveAt(after.raffles, k) == db.raffles;
  }
}
