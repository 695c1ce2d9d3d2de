# Movie-ticket seat and balance core, in Dafny

This project models the seat-booking and balance-settlement core of a Go
movie-ticket backend and proves properties of it. The model covers:

- the in-memory stores: tickets, users, movies, and the generated 8-by-8 seat map;
- the business rules of the user module: the age gate, the balance check, the
  batch availability check (at most six seats), top-up, withdrawal, and
  attaching a ticket to a user or detaching it;
- the purchase and cancellation sequences of the user handler;
- the two "blacklist" input validators.

Modules follow the Go files:

- `Common` (common.dfy): `Option`, `Result`, the error kinds, `FirstIndex` (the first-match scan every lookup uses) and `Wrap64` (the result of Go's 64-bit `int` arithmetic).
- `Entities` (entities.dfy): `Seat`, `Movie`, `Ticket`, `User` and their lookup keys.
- `SeatRepo`, `MovieRepo`, `TicketRepo`, `UserRepo`: repositories/seat.go, movie.go, ticket.go, user.go.
- `UserUseCase` (user_usecase.dfy): modules/user/usecase.go.
- `UserHandler` (user_handler.dfy): `BuyTicket` and `CancelTicket` of modules/user/handler.go.
- `UserValidator`, `MovieValidator` (validators.dfy): modules/user/validator.go and modules/movie/validator.go.

How the code is represented:

- **Stores.** The ticket and user stores are classes whose `data` field is a
  sequence that the methods reassign.
- **Movie catalogue.** It has value receivers and is never changed, so it is a
  sequence of `Movie` values with functions over it.
- **Seat maps.** A movie's seat map is shared by every copy of the movie (a Go
  slice), so `Movie.seats` is an `array<Seat>`. The handler's loops write it in place.
- **Purchase and cancel.** Each sequence is a method proved equal to a value-level
  specification: `Purchase` and `Settlement` for buying, `Cancellation` for
  cancelling. Each gives the response plus the new user store, ticket store and
  seat map. The properties are lemmas about these functions.

The model reproduces these behaviours of the code:

- Cancelling a ticket refunds nothing.
- A failure after the withdrawal rolls back neither the debit nor the bookings.
- `CheckAvailability` books no seat. Its line that would set the flag is
  commented out, and its reset of the previously found seat rewrites a seat
  that is already free.
- The use case stores a ticket by calling the ticket store's `Update` (which
  always reports NOT_FOUND) and then `Create`. So on an ID clash the stored
  ticket is overwritten before the create fails.
- A seat requested twice in one batch is accepted.
- Balances, prices and costs are Go's 64-bit `int`, so a top-up or a price
  times seat count past the `int` range wraps around. The model computes both
  through `Wrap64`. `TopUpWraps` and `PurchaseCostWraps` show one wrap each: a
  negative balance after a top-up, and six expensive seats that cost 2.

`PurchaseThenCancel` states the first point precisely: the seat map and the
ticket store come back as before, but the balance stays debited.

## Model

| member | source | states |
|---|---|---|
| Common.Wrap64 | modules/user/usecase.go:139 | Go's `int` result of a sum or product lies in the 64-bit range and equals the exact value whenever that is in range |
| SeatRepo.StandardLayout | repositories/seat.go:7-23 | the generated map has 64 seats, all free, rows A–H, numbers 1–8 |
| SeatRepo.GenerateSeats | repositories/seat.go:7-23 | the nested loops build exactly the row-major map: index k holds row "ABCDEFGH"[k/8], number k%8+1, free |
| SeatRepo.StandardLayoutDistinct | repositories/seat.go:11-19 | no two generated seats share a (row, number) position |
| MovieRepo.Read | repositories/movie.go:22-30 | success returns a stored movie with the requested ID, the first one in slice order; it fails with EMPTY_DATA iff no movie has that ID |
| MovieRepo.ReadAll | repositories/movie.go:31-33 | returns the stored slice as it is and never fails |
| TicketRepo.TicketRepository.Create | repositories/ticket.go:24-32 | a stored ID is refused with a duplicate error and no change; otherwise the ticket is appended; ID uniqueness is preserved |
| TicketRepo.TicketRepository.Read | repositories/ticket.go:34-41 | returns the first ticket with the ID, or NOT_FOUND when there is none; changes nothing |
| TicketRepo.TicketRepository.Update | repositories/ticket.go:43-50 | every ticket with the ID is overwritten, the others and the length are kept; it always reports NOT_FOUND |
| TicketRepo.TicketRepository.Delete | repositories/ticket.go:52-60 | removes the first ticket with the ID and keeps the rest in order; an absent ID gives NOT_FOUND and no change |
| TicketRepo.CreateKeepsIdsUnique | repositories/ticket.go:24-32 | a successful create keeps IDs pairwise distinct |
| TicketRepo.ReadAfterCreate | repositories/ticket.go:24-41 | after a successful create of t, reading t's ID finds t at the end |
| TicketRepo.DeleteAfterCreateRestores | repositories/ticket.go:24-60 | a successful create followed by a delete of the same ticket restores the store |
| TicketRepo.DeleteRemovesId | repositories/ticket.go:52-60 | with unique IDs, delete keeps them unique and the deleted ID can no longer be found |
| UserRepo.UserRepository.Create | repositories/user.go:30-38 | a taken username is refused with no change; otherwise the user is appended; username uniqueness is preserved |
| UserRepo.UserRepository.GetByUsername | repositories/user.go:39-46 | returns the first user with the username, or EMPTY_DATA when there is none; changes nothing |
| UserRepo.UserRepository.Update | repositories/user.go:48-56 | replaces the first user with the same username, or reports "user not found" and changes nothing |
| UserRepo.CreateKeepsUsernamesUnique | repositories/user.go:30-38 | a successful create keeps usernames pairwise distinct |
| UserRepo.ReadAfterUpdate | repositories/user.go:39-56 | after a successful update of u, only u's entry changed, it is u, the username still finds it there, and uniqueness is kept |
| UserRepo.FindAfterReplace | repositories/user.go:39-56 | overwriting the entry found for a username with a user of that username leaves it the entry found |
| UserRepo.UpdateIdempotent | repositories/user.go:48-56 | applying the same update twice leaves the store as applying it once |
| UserUseCase.NotPermitted | modules/user/usecase.go:82-84 | true iff the user is younger than the movie's age rating; a user whose age equals the rating is admitted |
| UserUseCase.CheckBalance | modules/user/usecase.go:86-91 | BALANCE_INSUFFICIENT iff the balance is below the price, otherwise no error |
| UserUseCase.Availability | modules/user/usecase.go:92-133 | more than six seats give MAX_TICKET_REACH; success iff 1 to 6 seats all present and free; an empty request gives TICKET_UNAVAILABLE, a missing or booked seat PANIC; success returns one seat per request, in order, each the first map seat at that position and free |
| UserUseCase.RepeatedSeatAccepted | modules/user/usecase.go:103-128 | the same free seat requested twice in one batch is accepted and returned twice |
| UserUseCase.FindSeat | modules/user/usecase.go:106-111 | the search finds the first map seat at the requested row and number, or reports none |
| UserUseCase.UseCase.CheckAvailability | modules/user/usecase.go:92-133 | answers as Availability on the map and leaves every seat of the map as it was |
| UserUseCase.UseCase.TopUp | modules/user/usecase.go:135-144 | a negative amount is refused with NEGATIVE_VALUE and no change; otherwise the 64-bit sum of balance and n is stored; that is exactly n more, and non-negative for a non-negative balance, whenever the sum fits in an `int` |
| UserUseCase.TopUpWraps | modules/user/usecase.go:139 | a top-up of the largest `int` onto a balance of 1 leaves the smallest `int`, a negative balance |
| UserUseCase.UseCase.Withdraw | modules/user/usecase.go:146-158 | a negative amount gives NEGATIVE_VALUE, an amount above the balance BALANCE_INSUFFICIENT, both with no change; otherwise exactly n is subtracted and the user stored; a non-negative balance stays non-negative |
| UserUseCase.UseCase.BuyTicket | modules/user/usecase.go:69-80 | a clashing ticket ID fails after every stored ticket with that ID was overwritten and leaves the users alone; otherwise the ticket is appended to the store and to the user's list, and the user is stored |
| UserUseCase.UseCase.CancelTicket | modules/user/usecase.go:160-175 | the user is stored without its first ticket of that ID (others in order, balance unchanged), then the ticket is deleted from the store |
| UserHandler.MarkedLayoutFlags | modules/user/handler.go:270-277 | after the seat loop every map seat equal to a request seat has the new flag, and a seat that changed has the new flag and a request seat at its position |
| UserHandler.MarkEqual | modules/user/handler.go:271-276 | one inner pass gives the new flag to exactly the map seats equal to the request seat, and reports whether there was one |
| UserHandler.MarkMatching | modules/user/handler.go:270-277 | the nested loop leaves the seat map as MarkedLayout and the request copy as MarkedRequest of the original map |
| UserHandler.BookThenFreeRestores | modules/user/handler.go:270-277 | on a map without repeated positions, booking free seats and then freeing the booked copies the ticket keeps restores the map exactly |
| UserHandler.PurchaseRefusals | modules/user/handler.go:211-259 | the age gate comes first, then availability, then the balance check on the 64-bit cost, then a negative cost (a negative price gives one when the product fits in an `int`); any refusal leaves both stores and the seat map unchanged |
| UserHandler.PurchaseCharges | modules/user/handler.go:249-307 | a purchase past the checks debits the 64-bit product of price and seat count (the exact product when it fits in an `int`) from the caller only, keeping a non-negative balance non-negative; the ticket records ID, user, movie, requested positions and that cost and is appended to store and user; on an ID clash the debit stays and the user gains no ticket |
| UserHandler.PurchaseBooks | modules/user/handler.go:260-277 | once the cost is withdrawn, every map seat equal to a selected seat is booked, including the first seat at each requested position; only requested positions change |
| UserHandler.PurchaseTouchesOnlyCaller | modules/user/handler.go:260-307 | a purchase changes no user but the caller, whose username, ID and age stay |
| UserHandler.PurchaseLookups | modules/user/handler.go:260-307 | after a purchase the caller is found by username at the same position and a created ticket is found by its ID at the end of the store |
| UserHandler.PurchaseSettles | modules/user/handler.go:236-307 | a purchase that passes every check withdraws its 64-bit cost, which lies between zero and the balance, and then settles a batch of free seats |
| UserHandler.PurchaseCostWraps | modules/user/handler.go:249-269 | six available seats at price 3074457345618258603 cost 2 after wrap-around: a caller with balance 2 is admitted and left with 0 |
| UserHandler.SettlementThenCancel | modules/user/handler.go:270-451 | settling free seats under a fresh ID and cancelling that ticket restores the seat map, the ticket store and the post-debit users |
| UserHandler.PurchaseThenCancel | modules/user/handler.go:173-457 | purchase then cancel of its ticket restores seat map and ticket store, but the caller keeps the debit: no refund |
| UserHandler.CancellationFrees | modules/user/handler.go:434-441 | cancel frees every map seat equal to a ticket seat and changes only positions the ticket holds |
| UserHandler.CancellationKeepsBalance | modules/user/handler.go:442-451 | cancel keeps every balance and every other user, and with unique IDs the ticket is gone from the store |
| UserHandler.Handler.BuyTicket | modules/user/handler.go:173-314 | an unknown user is UNAUTHORIZED, an unknown movie NOT_FOUND, both with nothing changed; otherwise the response, stores and the movie's map are as Purchase says and no other map changes |
| UserHandler.Handler.Checkout | modules/user/handler.go:211-307 | the steps after the lookups produce exactly Purchase |
| UserHandler.Handler.Pay | modules/user/handler.go:249-307 | the steps from the balance check on produce exactly Payment for the computed cost |
| UserHandler.Handler.Debit | modules/user/handler.go:260-307 | after a passed balance check, the withdrawal and what follows produce exactly Payment: a negative cost gives NEGATIVE_VALUE with nothing changed |
| UserHandler.Handler.Settle | modules/user/handler.go:270-307 | the steps after the withdrawal produce exactly Settlement |
| UserHandler.Handler.FreeSeats | modules/user/handler.go:433-441 | frees the ticket's seats on its movie's map, other maps unchanged; with no such movie nothing changes |
| UserHandler.Handler.CancelTicket | modules/user/handler.go:397-457 | an unknown user is UNAUTHORIZED, an unknown ticket NOT_FOUND, both with nothing changed; otherwise SUCCESS with stores and map as Cancellation says |
| UserHandler.Handler.Forget | modules/user/handler.go:442-451 | the use case drops the caller's first copy of the ticket and deletes the stored ticket; it succeeds |
| UserValidator.MatchesWhole | modules/user/validator.go:16 | the anchored pattern matches iff the field is non-empty and holds no refused character |
| UserValidator.BlacklistValidation | modules/user/validator.go:9-18 | the empty field passes; a field passes iff it holds none of ' " [ ] < > { } |
| UserValidator.AcceptedClosed | modules/user/validator.go:16-17 | accepted fields stay accepted under concatenation and slicing |
| UserValidator.SeparatorsAccepted | modules/user/validator.go:16 | a field made only of '/', '\' and ':' passes |
| MovieValidator.FindsMatch | modules/movie/validator.go:18 | the unanchored pattern matches iff some character of the field is refused |
| MovieValidator.BlacklistValidation | modules/movie/validator.go:10-21 | the empty field passes; a field passes iff it holds none of < > ' " [ ] { } / \ : |
| MovieValidator.AcceptedConcat | modules/movie/validator.go:18-20 | accepted fields stay accepted under concatenation |
| MovieValidator.StricterThanUser | modules/movie/validator.go:18 | every field the movie validator accepts the user validator accepts, and "a/b" shows the converse fails |

## Left out

- HTTP handling is not modelled: routing, JSON binding, the movie ID parameter parse, responses and status codes. The caller's username, the movie ID, the requested seats and the ticket ID are parameters, and the response is a `Response` value.
- JWT authentication and bcrypt are not modelled; they are foreign libraries.
- The ticket ID is a parameter because `uuid.NewRandom` is a foreign library. Its failure branch (FAILED_GENERATE_UUID) is not modelled.
- Logging, timestamps and the movie fields the core never reads are dropped.
- The use case's `Create`, `GetUser`, `GetMovie` and `GetTicket` only pass repository results on. The handler model calls `GetByUsername`, `MovieRepo.Read` and `TicketRepository.Read` directly, which has the same effect on the paths the handler takes.
- Seat maps are shared arrays. A ticket's seat slice and a user's ticket slice are values here, not shared Go slices.
- UserHandler.Handler.FreeSeats: the Go loop also writes `Booked = false` into the ticket's own seat slice (modules/user/handler.go:432 and 437). That slice is shared by the stored ticket, the copy the repository returned, and every user-record copy of the ticket appended at modules/user/usecase.go:75. The model discards the freed copy, so these writes are not modelled.
- UserHandler.Handler.CancelTicket: `Cancellation` leaves every other user's record unchanged, and also any further copy of the ticket the caller holds. In Go, those copies of the cancelled ticket (for example the buyer's copy, when another user cancels it) afterwards show the freed seats with Booked = false. Only the seat flags inside those copies differ; which tickets each user holds, and every balance, are as modelled.
- UserUseCase.UseCase.Withdraw: the subtraction is not wrapped. With 0 <= n <= balance it cannot leave the `int` range for any balance Go can hold. Integer fields are unbounded `int`s; values outside the 64-bit range, which Go cannot hold, are not excluded.
- Concurrency is not modelled; the repositories are unsynchronised and everything is single-threaded.
- Each validator's regular expression is modelled as the character scan it amounts to. The library plumbing around it (field access, logging) is dropped. Characters are Dafny `char`s, not UTF-8 bytes.
