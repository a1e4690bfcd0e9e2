/**
 * The field constraints of `CreateRaffleDto` as a validity predicate over the
 * raw request body: which bodies the class-validator decorators accept, and
 * what an accepted body guarantees to the ticket allocator.
 */
module RaffleDto {

  /** One field of a JSON request body. */
  datatype JsonValue =
    | Missing            // the property is absent (undefined)
    | Null
    | Str(s: string)
    | Num(value: real)   // a finite number
    | NonFinite          // NaN or an infinity
    | Bool(b: bool)
    | Composite          // an object or an array

  /** The raw body of a raffle creation request. */
  datatype RaffleBody = RaffleBody(
    name: JsonValue,
    description: JsonValue,
    imageUrl: JsonValue,
    ticketPrice: JsonValue,
    totalTickets: JsonValue,
    startDate: JsonValue,
    endDate: JsonValue,
    slug: JsonValue)

  /** The properties of the request, in declaration order. */
  datatype Field = Name | Description | ImageUrl | TicketPrice | TotalTickets | StartDate | EndDate | Slug

  /** `@IsString()`. */
  predicate IsString(v: JsonValue) { v.Str? }

  /** `@IsOptional()` in front of `@IsString()`: absent or null skips the check. */
  predicate IsOptionalString(v: JsonValue) { v.Missing? || v.Null? || v.Str? }

  /** `@IsNumber()` and `@Min(1)`: a finite number no smaller than 1. */
  predicate IsNumberAtLeastOne(v: JsonValue) { v.Num? && v.value >= 1.0 }

  /** `@IsInt()` and `@Min(1)`: a whole number no smaller than 1. */
  predicate IsIntAtLeastOne(v: JsonValue) { v.Num? && v.value.Floor as real == v.value && v.value >= 1.0 }

  /** `@IsDateString()`; what counts as an ISO 8601 date string is the validator library's, passed in. */
  predicate IsDateString(v: JsonValue, isIsoDate: string -> bool) { v.Str? && isIsoDate(v.s) }

  /** Whether the decorators of one property accept its value. */
  predicate FieldValid(b: RaffleBody, f: Field, isIsoDate: string -> bool)
  {
    match f
    case Name => IsString(b.name)
    case Description => IsString(b.description)
    case ImageUrl => IsOptionalString(b.imageUrl)
    case TicketPrice => IsNumberAtLeastOne(b.ticketPrice)
    case TotalTickets => IsIntAtLeastOne(b.totalTickets)
    case StartDate => IsDateString(b.startDate, isIsoDate)
    case EndDate => IsDateString(b.endDate, isIsoDate)
    case Slug => IsString(b.slug)
  }

  /** A body every decorator accepts. */
  predicate IsValid(b: RaffleBody, isIsoDate: string -> bool)
  {
    forall f: Field :: FieldValid(b, f, isIsoDate)
  }

  const AllFields: seq<Field> := [Name, Description, ImageUrl, TicketPrice, TotalTickets, StartDate, EndDate, Slug]

  /** The validation errors of the body: the properties whose decorators reject them, in declaration order. */
  function Validate(b: RaffleBody, isIsoDate: string -> bool): (errors: seq<Field>)
    ensures forall f :: f in errors <==> !FieldValid(b, f, isIsoDate)
    ensures errors == [] <==> IsValid(b, isIsoDate)
  {
    var errors := Failing(b, AllFields, isIsoDate);
    EveryFieldListed();
    assert errors != [] ==> errors[0] in errors;
    errors
  }

  lemma EveryFieldListed()
    ensures forall f: Field :: f in AllFields
  {
    forall f: Field ensures f in AllFields {
      match f
      case Name => assert AllFields[0] == f;
      case Description => assert AllFields[1] == f;
      case ImageUrl => assert AllFields[2] == f;
      case TicketPrice => assert AllFields[3] == f;
      case TotalTickets => assert AllFields[4] == f;
      case StartDate => assert AllFields[5] == f;
      case EndDate => assert AllFields[6] == f;
      case Slug => assert AllFields[7] == f;
    }
  }

  function Failing(b: RaffleBody, fields: seq<Field>, isIsoDate: string -> bool): (errors: seq<Field>)
    ensures forall f :: f in errors <==> f in fields && !FieldValid(b, f, isIsoDate)
  {
    if fields == [] then []
    else (if FieldValid(b, fields[0], isIsoDate) then [] else [fields[0]]) + Failing(b, fields[1..], isIsoDate)
  }

  /**
   * An accepted body has a whole number of tickets of at least one, so the
   * numbers a reservation may use, `0 .. totalTickets - 1`, are never an
   * empty range, and a price of at least one.
   */
  lemma ValidRangeNonEmpty(b: RaffleBody, isIsoDate: string -> bool)
    requires IsValid(b, isIsoDate)
    ensures b.totalTickets.Num? && b.ticketPrice.Num?
    ensures var n := b.totalTickets.value.Floor;
      n as real == b.totalTickets.value && n >= 1 && 0 <= 0 < n && 0 <= n - 1 < n
    ensures b.ticketPrice.value >= 1.0
  {
    assert FieldValid(b, TotalTickets, isIsoDate) && FieldValid(b, TicketPrice, isIsoDate);
  }

  /** No constraint relates the two dates: swapping them keeps a body valid, so a start after the end passes. */
  lemma DatesUnrelated(b: RaffleBody, isIsoDate: string -> bool)
    requires IsValid(b, isIsoDate)
    ensures IsValid(b.(startDate := b.endDate, endDate := b.startDate), isIsoDate)
  {
    var swapped := b.(startDate := b.endDate, endDate := b.startDate);
    assert FieldValid(b, StartDate, isIsoDate) && FieldValid(b, EndDate, isIsoDate);
    forall f: Field ensures FieldValid(swapped, f, isIsoDate) {
      assert FieldValid(b, f, isIsoDate);
    }
  }

  /** The image URL may be absent, null or any string; every other property must be present. */
  lemma OnlyImageUrlOptional(b: RaffleBody, isIsoDate: string -> bool)
    requires IsValid(b, isIsoDate)
    ensures IsValid(b.(imageUrl := Missing), isIsoDate) && IsValid(b.(imageUrl := Null), isIsoDate)
    ensures !IsValid(b.(name := Missing), isIsoDate) && !IsValid(b.(slug := Missing), isIsoDate)
    ensures !IsValid(b.(totalTickets := Missing), isIsoDate) && !IsValid(b.(startDate := Missing), isIsoDate)
  {
    forall f: Field ensures FieldValid(b.(imageUrl := Missing), f, isIsoDate) && FieldValid(b.(imageUrl := Null), f, isIsoDate) {
      assert FieldValid(b, f, isIsoDate);
    }
    assert !FieldValid(b.(name := Missing), Name, isIsoDate);
    assert !FieldValid(b.(slug := Missing), Slug, isIsoDate);
    assert !FieldValid(b.(totalTickets := Missing), TotalTickets, isIsoDate);
    assert !FieldValid(b.(startDate := Missing), StartDate, isIsoDate);
  }

  /** A fractional ticket count is refused, while a fractional price is accepted. */
  lemma FractionsOnlyInPrice(b: RaffleBody, isIsoDate: string -> bool)
    requires IsValid(b, isIsoDate)
    ensures !IsValid(b.(totalTickets := Num(1.5)), isIsoDate)
    ensures IsValid(b.(ticketPrice := Num(1.5)), isIsoDate)
  {
    assert !FieldValid(b.(totalTickets := Num(1.5)), TotalTickets, isIsoDate) by {
      assert (1.5).Floor == 1;
    }
    forall f: Field ensures FieldValid(b.(ticketPrice := Num(1.5)), f, isIsoDate) {
      assert FieldValid(b, f, isIsoDate);
    }
  }
}
