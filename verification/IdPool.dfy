/** The search for a free stream id in Fabric.PutIntoNextId. */
module IdPool {
  import opened Prelude

  const ID_SPACE: int := 0x1_0000
  const HALF_SPACE: int := 0x8000

  type Id = i: int | 0 <= i < ID_SPACE

  /** The k-th id the search looks at: next_id advanced k times by 2, in 16 bits. */
  function Candidate(next: Id, k: nat): Id {
    (next + 2 * k) % ID_SPACE
  }

  /** The first free candidate from the k-th on, before the search is back at its start. */
  function FirstFree(used: set<Id>, next: Id, k: nat): (r: Option<Id>)
    requires k <= HALF_SPACE
    ensures r.Some? ==> r.value !in used
    decreases HALF_SPACE - k
  {
    if k == HALF_SPACE then None
    else if Candidate(next, k) !in used then Some(Candidate(next, k))
    else FirstFree(used, next, k + 1)
  }

  /** Candidates keep the parity of next_id across the wrap, and come back after HALF_SPACE steps. */
  lemma CandidateFacts(next: Id, k: nat)
    requires k <= HALF_SPACE
    ensures Candidate(next, k) % 2 == next % 2
    ensures Candidate(next, k + 1) == (Candidate(next, k) + 2) % ID_SPACE
    ensures Candidate(next, k) == next <==> k == 0 || k == HALF_SPACE
  {
    assert next + 2 * k < 3 * ID_SPACE;
    assert Candidate(next, k) == if next + 2 * k < ID_SPACE then next + 2 * k else next + 2 * k - ID_SPACE;
  }

  /** Every id of the parity of next_id is a candidate. */
  lemma CandidateCovers(next: Id, id: Id) returns (k: nat)
    requires id % 2 == next % 2
    ensures k < HALF_SPACE && Candidate(next, k) == id
  {
    k := if id >= next then (id - next) / 2 else (id + ID_SPACE - next) / 2;
    assert 2 * k == if id >= next then id - next else id + ID_SPACE - next;
  }

  lemma {:induction false} FirstFreeFrom(used: set<Id>, next: Id, k: nat)
    requires k <= HALF_SPACE
    ensures var r := FirstFree(used, next, k);
            if r.None? then forall j :: k <= j < HALF_SPACE ==> Candidate(next, j) in used
            else exists m :: k <= m < HALF_SPACE && Candidate(next, m) == r.value
                             && forall j :: k <= j < m ==> Candidate(next, j) in used
    decreases HALF_SPACE - k
  {
    if k < HALF_SPACE {
      if Candidate(next, k) in used {
        FirstFreeFrom(used, next, k + 1);
        var r := FirstFree(used, next, k + 1);
        if r.Some? {
          var m :| k + 1 <= m < HALF_SPACE && Candidate(next, m) == r.value
                   && forall j :: k + 1 <= j < m ==> Candidate(next, j) in used;
          assert forall j :: k <= j < m ==> Candidate(next, j) in used;
        }
      } else {
        assert Candidate(next, k) == FirstFree(used, next, k).value;
      }
    }
  }

  /** The search fails exactly when all ids of the parity of next_id are taken; otherwise
      it finds a free id of that parity, and none that it passed over was free. */
  lemma SearchIsExact(used: set<Id>, next: Id)
    ensures FirstFree(used, next, 0).None? <==> forall id: Id :: id % 2 == next % 2 ==> id in used
    ensures var r := FirstFree(used, next, 0);
            r.Some? ==>
              && r.value % 2 == next % 2 && r.value !in used
              && exists m: nat :: m < HALF_SPACE && Candidate(next, m) == r.value
                                  && forall j :: 0 <= j < m ==> Candidate(next, j) in used
  {
    FirstFreeFrom(used, next, 0);
    var r := FirstFree(used, next, 0);
    if r.None? {
      forall id: Id | id % 2 == next % 2 ensures id in used {
        var k := CandidateCovers(next, id);
      }
    } else {
      var m :| 0 <= m < HALF_SPACE && Candidate(next, m) == r.value
               && forall j :: 0 <= j < m ==> Candidate(next, j) in used;
      CandidateFacts(next, m);
    }
  }
}
