/** Classification by vote among the nearest neighbours. The search that finds the neighbours
    is a parameter: for every vector it gives `quorum` row numbers, a negative one meaning that
    no neighbour was found. */
module Vote {

  predicate Found(ids: seq<int>) { exists i :: 0 <= i < |ids| && ids[i] >= 0 }

  /** Every neighbour has a cached label. */
  predicate Covered(ids: seq<int>, labelIds: seq<int>) { forall i :: 0 <= i < |ids| ==> ids[i] < |labelIds| }

  /** The votes that a label has after the first `i` neighbours. */
  function Votes(ids: seq<int>, labelIds: seq<int>, i: nat, l: int): nat
    requires i <= |ids|
  {
    if i == 0 then 0
    else Votes(ids, labelIds, i - 1, l) + if 0 <= ids[i - 1] < |labelIds| && labelIds[ids[i - 1]] == l then 1 else 0
  }

  ghost predicate AllBelow(ids: seq<int>, labelIds: seq<int>, i: nat, max: nat)
    requires i <= |ids|
  {
    forall l :: Votes(ids, labelIds, i, l) < max
  }

  /** With neighbour `t`, label `w` gets more votes than any label had before, and after the
      first `n` neighbours no label has more than that. */
  ghost predicate Reaches(ids: seq<int>, labelIds: seq<int>, n: nat, t: nat, w: int)
    requires n <= |ids|
  {
    && t < n
    && AllBelow(ids, labelIds, t, Votes(ids, labelIds, t + 1, w))
    && AllBelow(ids, labelIds, n, Votes(ids, labelIds, t + 1, w) + 1)
  }

  /** The label with the most votes that had so many first. */
  ghost predicate Wins(ids: seq<int>, labelIds: seq<int>, w: int) {
    exists t: nat :: Reaches(ids, labelIds, |ids|, t, w)
  }

  lemma {:induction false} VotesMonotone(ids: seq<int>, labelIds: seq<int>, i: nat, j: nat, l: int)
    requires i <= j <= |ids|
    ensures Votes(ids, labelIds, i, l) <= Votes(ids, labelIds, j, l)
    decreases j - i
  {
    if i < j { VotesMonotone(ids, labelIds, i, j - 1, l); }
  }

  lemma NotBefore(ids: seq<int>, labelIds: seq<int>, s: nat, v: int, t: nat, w: int)
    requires Reaches(ids, labelIds, |ids|, s, v) && Reaches(ids, labelIds, |ids|, t, w)
    ensures s >= t
  {
    if s < t {
      VotesMonotone(ids, labelIds, s + 1, t, v);
      VotesMonotone(ids, labelIds, t + 1, |ids|, w);
    }
  }

  /** No two labels win. */
  lemma WinnerUnique(ids: seq<int>, labelIds: seq<int>, v: int, w: int)
    requires Wins(ids, labelIds, v) && Wins(ids, labelIds, w)
    ensures v == w
  {
    var s: nat :| Reaches(ids, labelIds, |ids|, s, v);
    var t: nat :| Reaches(ids, labelIds, |ids|, t, w);
    NotBefore(ids, labelIds, s, v, t, w);
    NotBefore(ids, labelIds, t, w, s, v);
    assert Votes(ids, labelIds, t, v) < Votes(ids, labelIds, t + 1, v);
    assert Votes(ids, labelIds, t, w) < Votes(ids, labelIds, t + 1, w);
  }

  /** A label wins only if it is the label of a neighbour that was found. */
  lemma WinnerIsNeighbour(ids: seq<int>, labelIds: seq<int>, w: int) returns (i: nat)
    requires Wins(ids, labelIds, w)
    ensures i < |ids| && 0 <= ids[i] < |labelIds| && labelIds[ids[i]] == w
  {
    i :| Reaches(ids, labelIds, |ids|, i, w);
    assert Votes(ids, labelIds, i, w) < Votes(ids, labelIds, i + 1, w);
  }

  /** The answer for one vector: the winner, or -1 if no neighbour was found. */
  ghost predicate Answers(ids: seq<int>, labelIds: seq<int>, answer: int) {
    if Found(ids) then Wins(ids, labelIds, answer) else answer == -1
  }

  function Tally(voting: map<int, nat>, l: int): nat { if l in voting then voting[l] else 0 }

  /** The vote for one vector. A neighbour without a cached label raises an exception. */
  method Elect(ids: seq<int>, labelIds: seq<int>) returns (ok: bool, winner: int)
    ensures ok <==> Covered(ids, labelIds)
    ensures ok ==> Answers(ids, labelIds, winner)
  {
    var voting: map<int, nat> := map[];
    winner := -1;
    var max: nat := 0;
    ghost var t: nat := 0;
    for i := 0 to |ids|
      invariant forall k :: 0 <= k < i ==> ids[k] < |labelIds|
      invariant forall l :: Tally(voting, l) == Votes(ids, labelIds, i, l)
      invariant AllBelow(ids, labelIds, i, max + 1)
      invariant max == 0 ==> winner == -1 && forall k :: 0 <= k < i ==> ids[k] < 0
      invariant max > 0 ==> t < i && max == Votes(ids, labelIds, t + 1, winner) && AllBelow(ids, labelIds, t, max) && exists k :: 0 <= k < i && ids[k] >= 0
    {
      var idx := ids[i];
      if idx >= |labelIds| {
        return false, winner;
      }
      if idx >= 0 {
        var mark := labelIds[idx];
        voting := voting[mark := Tally(voting, mark) + 1];
        if max < voting[mark] {
          max := voting[mark];
          winner := mark;
          t := i;
        }
      }
    }
    ok := true;
    assert max > 0 ==> Reaches(ids, labelIds, |ids|, t, winner);
  }

  /** The answer -1 means that no neighbour was found or that the label -1, which rows without
      a label are stored with, won the vote. */
  lemma MinusOne(ids: seq<int>, labelIds: seq<int>, answer: int)
    requires Answers(ids, labelIds, answer)
    ensures answer == -1 <==> !Found(ids) || Wins(ids, labelIds, -1)
  {
    if Found(ids) && Wins(ids, labelIds, -1) {
      WinnerUnique(ids, labelIds, answer, -1);
    }
  }

  /** If no neighbour that was found carries the label -1, the answer -1 means that none was
      found. */
  lemma MinusOneMeansNone(ids: seq<int>, labelIds: seq<int>, answer: int)
    requires Answers(ids, labelIds, answer)
    requires forall i :: 0 <= i < |ids| && 0 <= ids[i] < |labelIds| ==> labelIds[ids[i]] != -1
    ensures answer == -1 <==> !Found(ids)
  {
    if Found(ids) && answer == -1 {
      var i := WinnerIsNeighbour(ids, labelIds, -1);
    }
  }

  /** Two neighbours labelled -1 outvote one labelled 7: neighbours were found and the answer is
      still -1. */
  lemma MinusOneCanWin()
    ensures Found([0, 1, 2]) && Wins([0, 1, 2], [-1, 7, -1], -1)
  {
    var ids, labelIds := [0, 1, 2], [-1, 7, -1];
    assert ids[0] >= 0;
    forall l
      ensures Votes(ids, labelIds, 2, l) == (if l == -1 || l == 7 then 1 else 0)
      ensures Votes(ids, labelIds, 3, l) == (if l == -1 then 2 else if l == 7 then 1 else 0)
    {
      assert Votes(ids, labelIds, 1, l) == if l == -1 then 1 else 0;
    }
    assert Reaches(ids, labelIds, 3, 2, -1);
  }

  /** The neighbours of vector `j`. */
  function Neighbours(idsAux: seq<int>, quorum: nat, j: nat): seq<int>
    requires (j + 1) * quorum <= |idsAux|
  {
    idsAux[j * quorum..(j + 1) * quorum]
  }

  ghost predicate AnswersFor(idsAux: seq<int>, quorum: nat, labelIds: seq<int>, j: nat, answer: int) {
    (j + 1) * quorum <= |idsAux| && Answers(Neighbours(idsAux, quorum, j), labelIds, answer)
  }

  lemma Within(j: nat, n: nat, quorum: nat)
    requires j < n
    ensures 0 <= j * quorum <= (j + 1) * quorum <= n * quorum
  {
  }

  predicate CoveredTo(ids: seq<int>, labelIds: seq<int>, end: nat) {
    forall i :: 0 <= i < end && i < |ids| ==> ids[i] < |labelIds|
  }

  /** The labels of `n` vectors, from the neighbours of all of them in one array. */
  method Classify(idsAux: seq<int>, labelIds: seq<int>, n: nat, quorum: nat) returns (ok: bool, labels: seq<int>)
    requires |idsAux| == n * quorum
    ensures ok <==> Covered(idsAux, labelIds)
    ensures ok ==> |labels| == n
    ensures forall j :: 0 <= j < |labels| ==> AnswersFor(idsAux, quorum, labelIds, j, labels[j])
  {
    labels := [];
    for j := 0 to n
      invariant |labels| == j
      invariant CoveredTo(idsAux, labelIds, j * quorum)
      invariant forall k :: 0 <= k < j ==> AnswersFor(idsAux, quorum, labelIds, k, labels[k])
    {
      Within(j, n, quorum);
      var elected, winner := Elect(Neighbours(idsAux, quorum, j), labelIds);
      SliceCovered(idsAux, labelIds, j * quorum, (j + 1) * quorum);
      if !elected {
        return false, labels;
      }
      assert AnswersFor(idsAux, quorum, labelIds, j, winner);
      labels := labels + [winner];
    }
    ok := true;
  }

  lemma SliceCovered(ids: seq<int>, labelIds: seq<int>, a: nat, b: nat)
    requires a <= b <= |ids|
    ensures Covered(ids[a..b], labelIds) && CoveredTo(ids, labelIds, a) ==> CoveredTo(ids, labelIds, b)
    ensures Covered(ids, labelIds) ==> Covered(ids[a..b], labelIds)
  {
    if Covered(ids[a..b], labelIds) && CoveredTo(ids, labelIds, a) {
      forall i | 0 <= i < b ensures ids[i] < |labelIds| {
        if a <= i { assert ids[a..b][i - a] == ids[i]; }
      }
    }
  }
}
