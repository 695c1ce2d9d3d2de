/** The read-only movie catalogue (repositories/movie.go). Both operations
    have value receivers and never change the stored slice, so the catalogue
    is a plain sequence and the operations are functions over it. */
module MovieRepo {
  import opened Common
  import opened Entities

  /** The first stored movie with the given ID, or EMPTY_DATA. */
  function Read(data: seq<Movie>, id: int): (r: Result<Movie>)
    ensures r.Success? ==> r.value.id == id && r.value in data
    ensures r.Success? ==> exists k :: 0 <= k < |data| && data[k] == r.value && FirstIndex(data, MovieId, id) == Some(k)
    ensures r.Failure? <==> forall k :: 0 <= k < |data| ==> data[k].id != id
    ensures r.Failure? ==> r.error == EmptyData
  {
    if |data| == 0 then Failure(EmptyData)
    else if data[0].id == id then Success(data[0])
    else
      var r := Read(data[1..], id);
      if r.Success? then
        ghost var k :| 0 <= k < |data[1..]| && data[1..][k] == r.value && FirstIndex(data[1..], MovieId, id) == Some(k);
        assert data[k + 1] == r.value;
        FirstIndexAt(data, MovieId, id, k + 1);
        r
      else r
  }

  /** The stored slice itself; it never fails. */
  function ReadAll(data: seq<Movie>): (r: Result<seq<Movie>>)
    ensures r.Success? && r.value == data
  {
    Success(data)
  }
}
