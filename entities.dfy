/** The records of the ticketing backend (the `entities` package). Timestamps,
    and the movie's description, release date and poster URL, carry no logic
    and are not modelled. */
module Entities {
  import opened Common

  /** A seat of a movie's seat map; only `booked` ever changes. */
  datatype Seat = Seat(row: string, number: int, booked: bool)

  /** A movie. Like the Go struct, a copy of a Movie still shares its seat
      storage: `seats` is a reference to one mutable array per movie. */
  datatype Movie = Movie(id: int, title: string, ageRating: int, ticketPrice: int, seats: array<Seat>)

  /** A purchased ticket. The handler fills in the movie's ID rather than a
      whole Movie value. */
  datatype Ticket = Ticket(id: string, userId: string, movieId: int, seats: seq<Seat>, cost: int)

  /** A registered user with the copies of the tickets it holds. */
  datatype User = User(id: string, username: string, password: string, name: string,
                       age: int, balance: int, tickets: seq<Ticket>)

  // Lookup keys used by the first-match scans.

  function SeatKey(s: Seat): (string, int) { (s.row, s.number) }
  function MovieId(m: Movie): int { m.id }
  function TicketId(t: Ticket): string { t.id }
  function UserName(u: User): string { u.username }

  /** No two seats of a seat map share a (row, number) position. */
  ghost predicate DistinctKeys(layout: seq<Seat>) {
    forall i, j :: 0 <= i < j < |layout| ==> SeatKey(layout[i]) != SeatKey(layout[j])
  }

  /** The seat arrays of a list of movies: what seat updates may touch. */
  function Layouts(movies: seq<Movie>): set<array<Seat>> {
    set m | m in movies :: m.seats
  }
}
