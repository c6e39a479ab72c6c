/**
 * The similarity frame (movie.py:66-67, 80). The similarity values come from
 * sklearn's `cosine_similarity`, which is not part of this model: they enter
 * as a given matrix, and the frame labels both of its axes with the rating
 * matrix's user index.
 */
module Similarity {
  import opened Wrappers
  import opened RatingStore

  datatype SimFrame = SimFrame(index: seq<int>, values: seq<seq<real>>)

  /** The DataFrame constructor refuses values whose shape does not match the labels. */
  datatype ShapeError = ShapeMismatch

  /** As many rows as labels, and each row as long. */
  predicate Square(f: SimFrame)
  {
    |f.values| == |f.index| && forall i :: 0 <= i < |f.values| ==> |f.values[i]| == |f.index|
  }

  predicate NonNegativeEntries(values: seq<seq<real>>)
  {
    forall i, j :: 0 <= i < |values| && 0 <= j < |values[i]| ==> values[i][j] >= 0.0
  }

  /** movie.py:67: `pd.DataFrame(user_sim, index=user_item.index, columns=user_item.index)`. */
  function MakeFrame(m: Matrix, values: seq<seq<real>>): (r: Result<SimFrame, ShapeError>)
    ensures r.Ok? <==> |values| == |m.users| && forall i :: 0 <= i < |values| ==> |values[i]| == |m.users|
    ensures r.Ok? ==> Square(r.value) && r.value.index == m.users && r.value.values == values
  {
    if |values| == |m.users| && forall i :: 0 <= i < |values| ==> |values[i]| == |m.users|
    then Ok(SimFrame(m.users, values))
    else Err(ShapeMismatch)
  }

  /** movie.py:80: `user_sim.loc[user].values`; a label outside the index is a lookup failure. */
  function Row(f: SimFrame, user: int): (r: Option<seq<real>>)
    requires Square(f)
    ensures r.Some? <==> user in f.index
    ensures r.Some? ==> |r.value| == |f.index|
    ensures StrictlyIncreasing(f.index) ==>
      forall i :: 0 <= i < |f.index| && f.index[i] == user ==> r == Some(f.values[i])
  {
    match IndexOf(f.index, user)
    case Some(i) => Some(f.values[i])
    case None => None
  }
}
