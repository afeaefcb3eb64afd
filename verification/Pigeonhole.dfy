/** More values than boxes: two values share a box. */
module Pigeonhole {

  lemma {:induction false} TwoShareABox(box: seq<nat>, n: nat)
    requires |box| > n && forall i :: 0 <= i < |box| ==> box[i] < n
    ensures exists i, j :: 0 <= i < j < |box| && box[i] == box[j]
  {
    assert 0 <= box[0] < n;
    if i :| 0 <= i < |box| && box[i] == n - 1 {
      if j :| 0 <= j < |box| && j != i && box[j] == n - 1 {
        assert box[i] == box[j];
      } else {
        var rest := box[..i] + box[i + 1..];
        TwoShareABox(rest, n - 1);
        var p, q :| 0 <= p < q < |rest| && rest[p] == rest[q];
        var p', q' := if p < i then p else p + 1, if q < i then q else q + 1;
        assert box[p'] == box[q'];
      }
    } else {
      TwoShareABox(box[..n], n - 1);
      var i, j :| 0 <= i < j < n && box[..n][i] == box[..n][j];
      assert box[i] == box[j];
    }
  }

  /** Distinct values below n are at most n. */
  lemma DistinctFit(box: seq<nat>, n: nat)
    requires forall i :: 0 <= i < |box| ==> box[i] < n
    requires forall i, j :: 0 <= i < j < |box| ==> box[i] != box[j]
    ensures |box| <= n
  {
    if |box| > n { TwoShareABox(box, n); }
  }
}
