# Raffle system — a verified model in Dafny

This project models the core of a raffle web application. The server is a NestJS service over a Prisma database; the client is a set of Next.js pages. The model covers these parts:

- **Ticket engine** (`tickets_service.dfy`, `tickets_properties.dfy`):
  - reserving numbers (`create`) and bulk reservation (`createMany`);
  - marking a ticket as paid;
  - the occupied-number, per-raffle and phone-search queries;
  - the seven-day revenue rollup.
- **Raffle registry** (`raffles_service.dfy`, `raffles_properties.dfy`): creating a raffle under a generated slug, lookup by slug and by identifier, the listing with ticket counts, and deletion.
- **Request validation** (`create_raffle_dto.dfy`): the field constraints of the raffle creation request.
- **Client pages**:
  - the number picker (`ticket_selector.dfy`);
  - the checkout page and its confirmation text (`checkout.dfy`);
  - the per-state sales ranking (`state_sales_chart.dfy`);
  - the countdown (`countdown.dfy`);
  - the admin creation form with its slug (`create_raffle_page.dfy`).

The support modules are `wrappers.dfy` (Option, Result), `text.dfy` (the JavaScript string operations the code uses, over `seq<char>`), `sorting.dfy` (a stable sort by an integer key) and `store.dfy` (the database tables).

## How the model is built

**The database.** It is one `Store.Database` object shared by both services:
- raffles are a `seq`, in insertion order;
- clients are a `map` keyed by phone;
- tickets are a `seq`;
- one counter hands out fresh identifiers.

`Tables.Valid` states what the database guarantees:
- identifiers and raffle slugs are unique;
- one client per phone;
- every ticket refers to a stored raffle and a stored client.

**Service calls.** Each call is modelled twice:
- a function over a `Tables` value (for example `Tickets.CreateStep`), which the lemmas reason about;
- a method of the service class that performs the call step by step on the shared `Database`.

Each method's postcondition says that its result and the new database are exactly what the function gives, and that validity is kept.

**Pages.** A client page is a class whose fields are the component's state. Its event handlers are methods that state the whole new state. Whatever the page gets from outside comes in as a parameter:
- the server's answer;
- browser storage;
- the clock;
- date parsing.

## Model

| member | source | states |
|---|---|---|
| Text.Lower | server/src/raffles/raffles.service.ts:15 | `toLowerCase`: same length, each ASCII capital becomes its small letter, nothing else changes |
| Text.ReplaceAll | server/src/raffles/raffles.service.ts:15 | `replace(/ /g, '-')`: same length, every occurrence of the character replaced, every other kept |
| Text.KeepDigits | server/src/tickets/tickets.service.ts:142 | `replace(/\D/g, '')`: the result holds only digits, exactly the digits of the input; with `KeepDigitsAppend` and `KeepDigitsSingle`, in the input's order and with its repeats |
| Text.KeepDigitsAppend | server/src/tickets/tickets.service.ts:142 | the digits of a concatenation are the digits of the first part followed by those of the second |
| Text.KeepDigitsSingle | server/src/tickets/tickets.service.ts:142 | one character is kept exactly when it is a digit |
| Text.LowerAppend | client/app/admin/create-raffle/page.tsx:29 | `toLowerCase` of a concatenation is the concatenation of the lowered parts |
| Text.ReplaceAllAppend | client/app/admin/create-raffle/page.tsx:30 | `replace(/ /g, '-')` of a concatenation is the concatenation of the replaced parts |
| Text.PadStart | client/app/checkout/page.tsx:115 | `padStart`: length is the larger of the width and the input's, the input is the suffix, the prefix is all pad characters |
| Text.PadStartValue | client/components/TicketSelector.tsx:149 | a zero-padded decimal rendering is all digits and reads back as the number |
| Text.NatToString | client/app/checkout/page.tsx:115 | `toString` of a non-negative number: non-empty, all digits, one digit exactly below 10, no leading zero |
| Text.DigitsValueOfNatToString | client/app/checkout/page.tsx:115 | reading back the decimal rendering of `n` gives `n` |
| Text.SplitJoin | client/app/checkout/page.tsx:114-116 | splitting at `,` a `join(", ")` of comma-free pieces gives the pieces back, the later ones with their leading space |
| Sorting.SortBy | client/app/checkout/page.tsx:69 | the result is ordered by the key and is a permutation of the input |
| Sorting.SortByKeepsDistinct | client/components/admin/StateSalesChart.tsx:27-29 | sorting keeps distinct names distinct |
| Store.FindRaffle | server/src/tickets/tickets.service.ts:20-25 | `findUnique` by identifier: any result is a stored raffle with that identifier; `None` exactly when there is none |
| Store.Database.constructor | server/src/tickets/tickets.service.ts:11 | the injected database starts empty and valid |
| Tickets.OutOfRange | server/src/tickets/tickets.service.ts:43-50 | the invalid numbers are exactly the requested numbers outside `0 .. totalTickets - 1`; empty iff all are in range; with `OutOfRangeAppend` and `OutOfRangeSingle`, in request order and with the request's repeats |
| Tickets.OutOfRangeAppend | server/src/tickets/tickets.service.ts:43-50 | the invalid numbers of a concatenated request are those of the first part followed by those of the second |
| Tickets.OutOfRangeSingle | server/src/tickets/tickets.service.ts:43-50 | one number is reported exactly when it is outside the range |
| Tickets.GetOccupiedTickets | server/src/tickets/tickets.service.ts:107-119 | a number is listed iff some ticket of the raffle holds it, whatever its status |
| Tickets.OccupiedAreRaffleNumbers | server/src/tickets/tickets.service.ts:107-119 | the list has one entry per ticket of the raffle, that ticket's number, in store order, so a number held twice is listed twice |
| Tickets.Taken | server/src/tickets/tickets.service.ts:53-65 | the reported numbers are exactly the requested ones already held in the raffle; empty iff none is held |
| Tickets.ResolveClientValid | server/src/tickets/tickets.service.ts:69-83 | find-or-create by phone keeps the store valid, leaves raffles and tickets alone, and yields a stored client |
| Tickets.AddTicketsValid | server/src/tickets/tickets.service.ts:87-96 | appending rows with fresh consecutive identifiers, stored raffles and stored clients keeps the store valid |
| Tickets.CreateStep | server/src/tickets/tickets.service.ts:13-104 | `create` keeps the store valid; a failure leaves it unchanged; a success returns the requested numbers and keeps the raffles |
| Tickets.BulkStateLabel | server/src/tickets/tickets.service.ts:208 | the stored state is the request's when non-empty, otherwise a non-empty default |
| Tickets.CreateManyStep | server/src/tickets/tickets.service.ts:162-215 | `createMany` keeps the store valid and never touches the raffles; a refusal for taken numbers writes nothing (no client, no ticket) and lists exactly the requested numbers already held in the raffle |
| Tickets.IndexOfTicket | server/src/tickets/tickets.service.ts:131-139 | the position found holds the identifier; `None` exactly when no ticket has it |
| Tickets.MarkAsPaidStep | server/src/tickets/tickets.service.ts:131-139 | fails with not-found iff no ticket has the identifier, leaving the store unchanged; otherwise exactly that row becomes PAID with `paidAt` = now |
| Tickets.InRaffle | server/src/tickets/tickets.service.ts:122-128 | a row is listed iff it is a stored ticket of the raffle |
| Tickets.OwnedBy | server/src/tickets/tickets.service.ts:141-160 | a row is listed iff it is a stored ticket of one of the matching clients |
| Tickets.WithClient | server/src/tickets/tickets.service.ts:124-126 | `include: { client: true }`: each row paired with the stored client record of its client id |
| Tickets.ClientRowOf | server/src/tickets/tickets.service.ts:124-126 | one joined row: the stored ticket with the client stored under the client's phone, whose id is the ticket's client id |
| Tickets.WithDetails | server/src/tickets/tickets.service.ts:152-155 | `include: { raffle, client }`: each row paired with the stored raffle of its raffle id and the stored client of its client id |
| Tickets.DetailsOf | server/src/tickets/tickets.service.ts:152-155 | one joined row: the stored ticket with the raffle `findUnique` returns for its raffle id and the client stored under the client's phone |
| Tickets.FindAllByRaffle | server/src/tickets/tickets.service.ts:122-128 | a permutation of the raffle's tickets, by ascending number, each with the stored record of its client |
| Tickets.FindByPhone | server/src/tickets/tickets.service.ts:141-160 | a permutation of the tickets of clients whose phone contains the searched digits, by ascending number, each joined with its stored raffle and stored client |
| Tickets.TicketsService.FindOrCreateClient | server/src/tickets/tickets.service.ts:69-83 | the client and the new store are those of find-or-create by phone |
| Tickets.TicketsService.InsertReserved | server/src/tickets/tickets.service.ts:87-96 | one RESERVED row per number, in order, with consecutive fresh identifiers, appended to the table |
| Tickets.TicketsService.Create | server/src/tickets/tickets.service.ts:13-104 | the result and new store are exactly `CreateStep`'s; the store stays valid |
| Tickets.TicketsService.CreateMany | server/src/tickets/tickets.service.ts:162-215 | the result and new store are exactly `CreateManyStep`'s; the store stays valid |
| Tickets.TicketsService.MarkAsPaid | server/src/tickets/tickets.service.ts:131-139 | the result and new store are exactly `MarkAsPaidStep`'s; the store stays valid |
| Tickets.TicketsService.GetDailySales | server/src/tickets/tickets.service.ts:217-274 | seven buckets, oldest first, for today and the six days before, each the revenue of the tickets created that day |
| Tickets.EmptyBuckets | server/src/tickets/tickets.service.ts:246-254 | the first loop makes seven zero buckets, keyed by today and the six days before, and no others |
| Tickets.AddUpSales | server/src/tickets/tickets.service.ts:257-265 | the `forEach` adds each ticket's price to its day's bucket when it has one: every bucket ends as that day's revenue, no bucket is added |
| Tickets.OldestFirst | server/src/tickets/tickets.service.ts:268-273 | `Object.entries(...).reverse()`: the buckets in insertion order reversed, so the oldest day comes first |
| TicketsProperties.CreateSucceedsIff | server/src/tickets/tickets.service.ts:20-65 | `create` succeeds iff the raffle exists, has both dates, now is within them (inclusive), and every number is in range and free |
| TicketsProperties.CreateErrors | server/src/tickets/tickets.service.ts:20-65 | the checks in order: a missing raffle is not found; then a missing start or end date is a configuration error; then a time outside the window is not active; an out-of-range error is exactly `OutOfRange` of the request (request order); a taken error is non-empty, lists exactly the requested numbers already held, and only occurs when every number is in range |
| TicketsProperties.CreateEffects | server/src/tickets/tickets.service.ts:69-102 | on success the client stored under the phone is kept or created with the request's name and state, and one RESERVED ticket without state is appended per number |
| TicketsProperties.CreateAppends | server/src/tickets/tickets.service.ts:87-96 | on success the new table is the old one followed by `NewTickets` for the stored client |
| TicketsProperties.HasNumberAppend | server/src/tickets/tickets.service.ts:53-58 | a number is held in a concatenation iff it is held in one of the parts |
| TicketsProperties.CreateOccupies | server/src/tickets/tickets.service.ts:87-96 | after success every requested number is occupied; other raffles' occupancy is unchanged |
| TicketsProperties.AppendFreshKeepsUnique | server/src/tickets/tickets.service.ts:53-65 | appending free, pairwise distinct numbers of one raffle keeps numbers unique per raffle |
| TicketsProperties.CreateKeepsNumbersUnique | server/src/tickets/tickets.service.ts:53-96 | a reservation of pairwise distinct numbers keeps ticket numbers unique within every raffle |
| TicketsProperties.RepeatedNumberReservedTwice | server/src/tickets/tickets.service.ts:53-96 | the check reads stored tickets only, so `[5, 5]` on an empty raffle succeeds and stores number 5 twice |
| TicketsProperties.CreateTwiceRefused | server/src/tickets/tickets.service.ts:53-65 | repeating a successful non-empty reservation is refused with the numbers taken |
| TicketsProperties.TakenRefused | server/src/tickets/tickets.service.ts:53-65 | for an open raffle with every number in range, any held number makes `create` fail with exactly the held numbers and leaves the store |
| TicketsProperties.CreateManySucceedsIff | server/src/tickets/tickets.service.ts:170-212 | `createMany` succeeds iff no number is taken and either nothing is inserted or the raffle exists, whatever the dates or range |
| TicketsProperties.CreateManyEffects | server/src/tickets/tickets.service.ts:185-212 | on success one RESERVED, unpaid row per number, in request order, with the request's state or `Desconocido`, for the phone's client, created without state when new |
| TicketsProperties.CreateManyKeepsClientOnFailure | server/src/tickets/tickets.service.ts:185-212 | when the insert fails on a missing raffle no ticket is written but the created client stays |
| TicketsProperties.CreateManyKeepsNumbersUnique | server/src/tickets/tickets.service.ts:170-212 | a bulk reservation of pairwise distinct numbers keeps numbers unique |
| TicketsProperties.OccupancyIgnoresStatus | server/src/tickets/tickets.service.ts:108-116 | occupancy depends only on each ticket's raffle and number |
| TicketsProperties.MarkAsPaidKeepsOccupancy | server/src/tickets/tickets.service.ts:131-139 | paying leaves every raffle's occupied numbers unchanged |
| TicketsProperties.MarkAsPaidKeepsNumbersUnique | server/src/tickets/tickets.service.ts:131-139 | paying keeps numbers unique |
| TicketsProperties.MarkAsPaidTwice | server/src/tickets/tickets.service.ts:131-139 | paying an already paid ticket succeeds again, keeps it PAID and moves `paidAt` to the second time |
| TicketsProperties.OwnedByAll | server/src/tickets/tickets.service.ts:141-160 | when every ticket's client is selected, every ticket is listed |
| TicketsProperties.FindByPhoneWithoutDigits | server/src/tickets/tickets.service.ts:142-148 | a search string without digits matches every phone, so every stored ticket is listed |
| TicketsProperties.RangeRevenueEmpty | server/src/tickets/tickets.service.ts:257-265 | no tickets, no revenue in any range of days |
| TicketsProperties.RangeRevenueLast | server/src/tickets/tickets.service.ts:257-265 | one more ticket adds its price to the revenue of a range of days exactly when it was created within the range |
| TicketsProperties.BucketsAddUp | server/src/tickets/tickets.service.ts:246-265 | the daily revenues over `n` consecutive days add up to the revenue of exactly the tickets created within them |
| TicketsProperties.SalesTotal | server/src/tickets/tickets.service.ts:246-273 | the seven buckets' total is the revenue of exactly the tickets created in those seven days |
| TicketsProperties.SalesTotalRange | server/src/tickets/tickets.service.ts:246-273 | the buckets' total equals the day-by-day revenue of the range |
| Raffles.ServerSlug | server/src/raffles/raffles.service.ts:14-15 | the slug is the name with spaces as `-` and ASCII letters lowered, then `-` and the decimal timestamp; it holds no space or capital |
| Raffles.SlugTimestamp | server/src/raffles/raffles.service.ts:15 | the timestamp reads back from the slug's end |
| Raffles.SlugsDifferInTime | server/src/raffles/raffles.service.ts:15 | one name at two moments gets two slugs |
| Raffles.SpaceAndDashCollide | server/src/raffles/raffles.service.ts:15 | `"x 1"` and `"x-1"` at the same moment get the same slug |
| Raffles.FindOneBySlug | server/src/raffles/raffles.service.ts:26-30 | any result is a stored raffle with that slug; `None` iff none has it |
| Raffles.CreateStep | server/src/raffles/raffles.service.ts:11-23 | keeps the store valid; fails iff the generated slug is stored, leaving the store; otherwise appends the new raffle |
| Raffles.IndexOfRaffle | server/src/raffles/raffles.service.ts:54-61 | the position found holds the identifier; `None` iff no raffle has it |
| Raffles.RemoveAt | server/src/raffles/raffles.service.ts:58-60 | the table without the row at `k`: one row shorter, every other row kept, nothing added |
| Raffles.RemoveStep | server/src/raffles/raffles.service.ts:54-61 | keeps the store valid; not-found iff no raffle has the identifier; succeeds iff found and no ticket refers to it; a failure leaves the store |
| Raffles.RemoveKeepsValid | server/src/raffles/raffles.service.ts:54-61 | removing an unreferenced raffle keeps every invariant of the store |
| Raffles.RemoveAtKeepsDistinct | server/src/raffles/raffles.service.ts:54-61 | removing a row keeps identifiers and slugs distinct |
| Raffles.RemoveKeepsReference | server/src/raffles/raffles.service.ts:54-61 | a raffle other than the removed one can still be found |
| Raffles.WithCounts | server/src/raffles/raffles.service.ts:37-41 | `_count.tickets`: each raffle paired with the number of its tickets, in order |
| Raffles.RafflesOfWithCounts | server/src/raffles/raffles.service.ts:37-41 | attaching the counts keeps the raffles themselves, in order |
| Raffles.FindAll | server/src/raffles/raffles.service.ts:32-43 | a permutation of the raffles, newest first, each with its ticket count |
| Raffles.RafflesService.Create | server/src/raffles/raffles.service.ts:11-23 | the result and new store are exactly `CreateStep`'s; the store stays valid |
| Raffles.RafflesService.Remove | server/src/raffles/raffles.service.ts:54-61 | the result and new store are exactly `RemoveStep`'s; the store stays valid |
| RafflesProperties.CreateCopiesRequest | server/src/raffles/raffles.service.ts:17-21 | a created raffle holds the request's fields, the generated slug in place of the request's, and a fresh identifier |
| RafflesProperties.FindOneBySlugUnique | server/src/raffles/raffles.service.ts:26-30 | with distinct slugs, the raffle stored under a slug is the one found |
| RafflesProperties.FindOneUnique | server/src/raffles/raffles.service.ts:45-47 | with distinct identifiers, the raffle stored under an identifier is the one found |
| RafflesProperties.CreateThenFind | server/src/raffles/raffles.service.ts:11-30 | after `create`, the new raffle is found by its slug and by its identifier |
| RafflesProperties.RemoveDeletesExactly | server/src/raffles/raffles.service.ts:54-61 | a successful `remove` deletes exactly the raffle with that identifier and keeps tickets and clients |
| RafflesProperties.RemoveAtById | server/src/raffles/raffles.service.ts:58-60 | with distinct identifiers, deleting the row at a position keeps exactly the rows with another identifier |
| RafflesProperties.CreateThenRemove | server/src/raffles/raffles.service.ts:11-61 | removing a raffle right after creating it returns that raffle and restores the raffle table |
| RaffleDto.Validate | server/src/raffles/dto/create-raffle.dto.ts:11-36 | the errors are exactly the fields whose decorators reject them; none iff the body is valid |
| RaffleDto.Failing | server/src/raffles/dto/create-raffle.dto.ts:11-36 | a field is listed iff it is among those checked and its decorators reject it |
| RaffleDto.ValidRangeNonEmpty | server/src/raffles/dto/create-raffle.dto.ts:21-27 | a valid body has a whole ticket count of at least 1, so the number range is non-empty, and a price of at least 1 |
| RaffleDto.DatesUnrelated | server/src/raffles/dto/create-raffle.dto.ts:29-33 | no constraint relates the dates: swapping them keeps a body valid |
| RaffleDto.OnlyImageUrlOptional | server/src/raffles/dto/create-raffle.dto.ts:11-36 | the image URL may be absent or null; name, slug, ticket count and start date may not |
| RaffleDto.FractionsOnlyInPrice | server/src/raffles/dto/create-raffle.dto.ts:21-27 | a fractional ticket count is refused, a fractional price accepted |
| Selector.Without | client/components/TicketSelector.tsx:47 | `filter(n => n !== x)`: exactly the other elements remain; with `WithoutAppend` and `WithoutSingle`, in their order and with their repeats |
| Selector.WithoutAppend | client/components/TicketSelector.tsx:47 | the filter of a concatenation is the filter of the first part followed by that of the second |
| Selector.WithoutSingle | client/components/TicketSelector.tsx:47 | one element is kept exactly when it is not the removed value |
| Selector.Toggle | client/components/TicketSelector.tsx:45-51 | a selected number leaves the selection through the order-keeping filter `Without`, every other number staying; any other number is appended at the end |
| Selector.WithoutKeepsDistinct | client/components/TicketSelector.tsx:47 | removing a number keeps the selection free of repeats |
| Selector.WithoutAbsent | client/components/TicketSelector.tsx:47 | removing an absent number changes nothing |
| Selector.ToggleKeepsDistinct | client/components/TicketSelector.tsx:45-51 | toggling keeps the selection free of repeats |
| Selector.ToggleTwice | client/components/TicketSelector.tsx:45-51 | toggling an unselected number twice restores the selection |
| Selector.Grid | client/components/TicketSelector.tsx:23-24 | the grid is `0 .. min(totalTickets, 500) - 1` in order; empty for a non-positive size |
| Selector.GridLabels | client/components/TicketSelector.tsx:149 | every grid label has exactly the width (3 above 99 tickets, else 2) and reads back as its number |
| Selector.TicketSelector.constructor | client/components/TicketSelector.tsx:11-20 | the initial state: nothing selected or occupied, empty form, no modal |
| Selector.TicketSelector.LoadOccupied | client/components/TicketSelector.tsx:27-43 | an ok answer replaces the occupied numbers; otherwise nothing changes |
| Selector.TicketSelector.ToggleNumber | client/components/TicketSelector.tsx:45-51 | the selection becomes `Toggle` of the old one; nothing else changes |
| Selector.TicketSelector.HandleReserve | client/components/TicketSelector.tsx:53-97 | no request without a selection; on success the modal data is set, the numbers become occupied and the form clears; otherwise only an alert |
| Selector.TicketSelector.CloseModal | client/components/TicketSelector.tsx:100 | hides the modal and changes nothing else |
| Checkout.SortAscending | client/app/checkout/page.tsx:69 | `sort((a, b) => a - b)`: ascending, the same numbers |
| Checkout.Labels | client/app/checkout/page.tsx:115 | one `#NNN` label per ticket, in order |
| Checkout.LabelRoundTrip | client/app/checkout/page.tsx:115 | a non-negative number's label has no comma, is at least 4 characters and reads back as the number |
| Checkout.TicketStringRoundTrip | client/app/checkout/page.tsx:114-116 | the ticket list of the confirmation reads back as the tickets |
| Checkout.PieceRoundTrip | client/app/checkout/page.tsx:114-116 | each piece of the joined list, leading space and all, reads back as its ticket |
| Checkout.NegativeLabel | client/app/checkout/page.tsx:115 | a negative number keeps its sign inside the padding: `-5` gives `#0-5` |
| Checkout.CheckoutPage.constructor | client/app/checkout/page.tsx:45-56 | the empty initial page state over the stored cart |
| Checkout.CheckoutPage.LoadCart | client/app/checkout/page.tsx:59-70 | goes home when either cart key is missing; otherwise loads the raffle and the tickets in ascending order |
| Checkout.CheckoutPage.HandleSubmit | client/app/checkout/page.tsx:72-135 | nothing without a raffle; a notice without a state; otherwise the request, then cart cleared, summary and `/verificar` on success, or the error shown and the cart kept |
| StateSales.StateOf | client/components/admin/StateSalesChart.tsx:22 | a null, absent or empty state counts as `Desconocido`; any other state as itself |
| StateSales.Lookup | client/components/admin/StateSalesChart.tsx:23 | `counts[state]`: the entry found has the name; `None` iff no entry has it |
| StateSales.Tally | client/components/admin/StateSalesChart.tsx:18-24 | the dictionary has entries iff there are tickets |
| StateSales.TallyCounts | client/components/admin/StateSalesChart.tsx:18-24 | one entry per state that occurs, its count the number of its tickets, and the counts sum to the number of tickets |
| StateSales.BumpCounts | client/components/admin/StateSalesChart.tsx:23 | one increment keeps the dictionary an exact count of the states seen, its sum one more |
| StateSales.BumpExisting | client/components/admin/StateSalesChart.tsx:23 | incrementing an existing entry keeps an exact count |
| StateSales.BumpNew | client/components/admin/StateSalesChart.tsx:23 | adding an entry for a new state keeps an exact count |
| StateSales.CountByState | client/components/admin/StateSalesChart.tsx:18-24 | the `forEach` loop builds exactly `Tally` of the tickets' states |
| StateSales.TallyStep | client/components/admin/StateSalesChart.tsx:21-23 | counting one more ticket bumps the entry of its state |
| StateSales.AddOne | client/components/admin/StateSalesChart.tsx:23 | one step of the loop: the state's entry goes up by one in place, or a new entry with count one is added last (`Bump`) |
| StateSales.PercentBounds | client/components/admin/StateSalesChart.tsx:36 | a count in `1 .. max` gives a percentage in (0, 100], exactly 100 at the max |
| StateSales.WithPercents | client/components/admin/StateSalesChart.tsx:32-37 | each entry keeps its name and count and gets its percentage of the first entry's count |
| StateSales.RankedCounts | client/components/admin/StateSalesChart.tsx:27-29 | ranking keeps an exact count and orders it largest first |
| StateSales.RankedTally | client/components/admin/StateSalesChart.tsx:18-29 | the ranked dictionary is an exact count, largest first |
| StateSales.BarWidths | client/components/admin/StateSalesChart.tsx:32-37 | over counts ranked largest first, none zero, the first bar is 100 and every bar in (0, 100] |
| StateSales.BarsOfCounts | client/components/admin/StateSalesChart.tsx:27-37 | the bars carry each state once, its count and the descending order |
| StateSales.ComputeStats | client/components/admin/StateSalesChart.tsx:17-38 | the memoised computation yields exactly `Stats` |
| StateSales.StatsRanking | client/components/admin/StateSalesChart.tsx:17-38 | one bar per occurring state, names distinct, counts exact and descending, first at 100, all in (0, 100]; no tickets, no bars |
| StateSales.StatsCounts | client/components/admin/StateSalesChart.tsx:17-29 | the bars name each occurring state once, with its exact count, largest first |
| StateSales.StatsWidths | client/components/admin/StateSalesChart.tsx:32-37 | no bars iff no tickets; every width in (0, 100], the first exactly 100 |
| Countdown.Decompose | client/components/Countdown.tsx:22-28 | days non-negative, hours below 24, minutes and seconds below 60 |
| Countdown.DecomposeRecomposes | client/components/Countdown.tsx:23-28 | days·86400 + hours·3600 + minutes·60 + seconds is the whole seconds of the difference |
| Countdown.SplitUnique | client/components/Countdown.tsx:23-28 | two splits within those bounds that stand for the same seconds are equal |
| Countdown.PlaceUnique | client/components/Countdown.tsx:23-28 | a quotient and a remainder below the base are fixed by the number they make |
| Countdown.TimeBoxPads | client/components/Countdown.tsx:54 | a box shows `padStart(2, "0")` of its value: at least two digits, reading back as the value |
| Countdown.CountdownTimer.constructor | client/components/Countdown.tsx:10-16 | all parts zero, not expired |
| Countdown.CountdownTimer.CalculateTimeLeft | client/components/Countdown.tsx:19-32 | a positive difference replaces the split; otherwise, or for an unparsable date, expires and keeps the split; never un-expires |
| CreateRafflePage.Set | client/app/admin/create-raffle/page.tsx:34 | `{ ...prev, [name]: value }`: that field holds the value, every other field is kept |
| CreateRafflePage.KeepSlugChars | client/app/admin/create-raffle/page.tsx:31 | `replace(/[^\w-]+/g, "")`: exactly the characters of `[A-Za-z0-9_-]` remain; with `KeepSlugCharsAppend` and `KeepSlugCharsSingle`, in order and with their repeats |
| CreateRafflePage.KeepSlugCharsAppend | client/app/admin/create-raffle/page.tsx:31 | the kept characters of a concatenation are those of the first part followed by those of the second |
| CreateRafflePage.KeepSlugCharsSingle | client/app/admin/create-raffle/page.tsx:31 | one character is kept exactly when it is a word character or `-` |
| CreateRafflePage.FormSlug | client/app/admin/create-raffle/page.tsx:28-31 | the slug holds only `[a-z0-9_-]`, no space, and is no longer than the name; `FormSlugAppend` gives the derivation character by character |
| CreateRafflePage.FormSlugAppend | client/app/admin/create-raffle/page.tsx:28-31 | the derivation character by character: the slug of a concatenation is the concatenation of the slugs; a space gives `-`; any other character gives its lower case when that is a word character or `-`, and nothing otherwise |
| CreateRafflePage.SlugOutputFixed | client/app/admin/create-raffle/page.tsx:28-31 | each step of the derivation leaves a slug unchanged |
| CreateRafflePage.FormSlugIdempotent | client/app/admin/create-raffle/page.tsx:28-31 | deriving a slug from a slug gives it back |
| CreateRafflePage.PlainNameSlug | client/app/admin/create-raffle/page.tsx:28-31 | a name of small letters, digits and spaces loses nothing: its slug is the name with `-` for spaces |
| CreateRafflePage.CreateRaffleForm.constructor | client/app/admin/create-raffle/page.tsx:8-20 | empty form, not loading, no error |
| CreateRafflePage.CreateRaffleForm.HandleChange | client/app/admin/create-raffle/page.tsx:22-36 | the name sets both name and derived slug; any other field sets only itself |
| CreateRafflePage.CreateRaffleForm.HandleSubmit | client/app/admin/create-raffle/page.tsx:38-79 | without a token: `/login`, nothing posted; an unparsable date: its error, nothing posted; otherwise the payload, then the success alert and `/admin` or the error message |

## Left out

- Database I/O, transactions and isolation: each service call is one atomic step. The race between `createMany`'s occupancy check (tickets.service.ts:170) and its insert transaction (tickets.service.ts:200) is concurrency and is not modelled.
- Identifiers are natural numbers from one counter, standing in for the database's generated string identifiers.
- The database schema is not part of this model, so its constraints are assumptions:
  - A slug is unique; `Raffles.CreateStep` fails on a stored slug.
  - Deleting a raffle that tickets refer to fails (a required relation without cascade).
  - There is no uniqueness constraint on (raffle, ticket number); `TicketsProperties.RepeatedNumberReservedTwice` shows the consequence.
- The application installs no validation pipe (server/src/main.ts), so the DTO constraints of `RaffleDto` are a predicate over request bodies. The services take the typed request and do not rely on it.
- `Tickets.TicketsService.GetDailySales`:
  - the clock is a parameter;
  - a calendar day is a timestamp divided by 86400000 (UTC); the server's local time zone and the `es-MX` `dd/mm` labels are not modelled;
  - prices are integers rather than decimals converted with `Number`.
- The unimplemented stubs `findAll`, `findOne`, `update` and `remove` of the tickets service (tickets.service.ts:276-287) and `update` of the raffles service (raffles.service.ts:50-52) do nothing and are not modelled.
- Raffles.ServerSlug: lower-cases ASCII letters only; JavaScript's Unicode case mapping is not modelled. `Date.now()` is the `now` parameter.
- CreateRafflePage.FormSlug: lower-cases ASCII only. The two non-ASCII characters whose lower case is ASCII (U+0130 and U+212A) are deleted here, whereas the page would keep a letter for them.
- `RaffleDto.IsDateString`: what counts as an ISO 8601 date string is the validator library's and is a parameter. Numbers are reals, with non-finite values as one case.
- Ordering ties:
  - `FindAll`, `FindAllByRaffle` and `FindByPhone` order ties as the insertion sort leaves them, whereas the database leaves them unspecified; the model states sortedness and permutation, not stability.
  - The chart's dictionary keeps insertion order; JavaScript would list state names that look like array indices first.
- Client pages:
  - rendering, animation, toasts and WhatsApp links are not modelled;
  - `fetch`, JSON parsing and browser storage are parameters (`Option` for a missing key or a failed answer);
  - the checkout page's and the selector's reservation messages are modelled as returned values.
- Checkout.CheckoutPage.HandleSubmit: the numbers are kept as integers, so a negative ticket in a tampered cart renders as in `Checkout.NegativeLabel`.
- CreateRafflePage.CreateRaffleForm.HandleSubmit:
  - `Number()` conversion of price and ticket count is not modelled; the payload keeps the typed text;
  - a server message that is an array of validation messages is treated as a string.
- StateSales.Lookup: the model's dictionary holds only the entries counted. The page's `counts` is a `{}` literal, so `counts[state]` also finds members inherited from `Object.prototype`. For a state named `__proto__` the assignment is ignored and those tickets get no bar. For `constructor`, `toString`, `hasOwnProperty` and the other inherited names the count becomes a string, and sorting and `percent` then see `NaN`. `TallyCounts`, `StatsRanking` and `StatsCounts` hold for the page only when no state has such a name. `clientState` reaches the page unchecked from the bulk request.
- StateSales.WithPercents: the bar widths are exact rationals, whereas the chart computes `(count / maxVal) * 100` in IEEE doubles, so a width that is not 100 may differ from the page's by rounding. The bounds (0, 100] and the exact 100 of the largest bar hold in both.
- Countdown.CountdownTimer.CalculateTimeLeft: uses integer division in place of floating-point division and `%`. The two agree for positive differences up to rounding. `setInterval` is repeated calls of the method.
