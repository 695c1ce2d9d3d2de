/** The seat map every movie receives at catalogue load
    (repositories/seat.go). */
module SeatRepo {
  import opened Entities

  /** The row labels, in the order the rows are generated. */
  const Rows: seq<string> := ["A", "B", "C", "D", "E", "F", "G", "H"]

  /** The generated map in closed form: seat `k` sits in row `k / 8` and has
      number `k % 8 + 1`, and every seat starts free. */
  function StandardLayout(): (r: seq<Seat>)
    ensures |r| == 64
    ensures forall k :: 0 <= k < |r| ==> !r[k].booked
    ensures forall k :: 0 <= k < |r| ==> r[k].row in Rows && 1 <= r[k].number <= 8
  {
    seq(64, k requires 0 <= k < 64 => Seat(Rows[k / 8], k % 8 + 1, false))
  }

  /** Builds the 8-by-8 seat map row by row, as the nested loops of the source
      do, and yields exactly the closed form above. */
  method GenerateSeats() returns (seats: seq<Seat>)
    ensures seats == StandardLayout()
  {
    seats := [];
    var r := 0;
    while r < |Rows|
      invariant 0 <= r <= |Rows|
      invariant |seats| == 8 * r
      invariant forall k :: 0 <= k < |seats| ==> seats[k] == Seat(Rows[k / 8], k % 8 + 1, false)
    {
      var i := 1;
      while i <= 8
        invariant 1 <= i <= 9
        invariant |seats| == 8 * r + i - 1
        invariant forall k :: 0 <= k < |seats| ==> seats[k] == Seat(Rows[k / 8], k % 8 + 1, false)
      {
        ghost var k := |seats|;
        assert k / 8 == r && k % 8 == i - 1;
        seats := seats + [Seat(Rows[r], i, false)];
        i := i + 1;
      }
      r := r + 1;
    }
  }

  /** The row labels are pairwise different. */
  lemma RowsDistinct()
    ensures forall a, b :: 0 <= a < b < |Rows| ==> Rows[a] != Rows[b]
  {
    forall a, b | 0 <= a < b < |Rows| ensures Rows[a] != Rows[b] {
      assert Rows[a][0] != Rows[b][0];
    }
  }

  /** No two generated seats share a (row, number) position. */
  lemma StandardLayoutDistinct()
    ensures DistinctKeys(StandardLayout())
  {
    var s := StandardLayout();
    RowsDistinct();
    forall i, j | 0 <= i < j < |s| ensures SeatKey(s[i]) != SeatKey(s[j]) {
      assert i / 8 != j / 8 || i % 8 != j % 8;
    }
  }
}
