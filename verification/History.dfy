/** What a history of events says: whether something started and has not ended since. */
module History {
  type Moments = int -> bool

  /** Something started before moment `n` and nothing has ended it since. */
  ghost predicate Since(starts: Moments, ends: Moments, n: nat) {
    exists i | 0 <= i < n :: starts(i) && forall j | i < j < n :: !ends(j)
  }

  lemma SinceStep(starts: Moments, ends: Moments, n: nat)
    requires n > 0
    ensures Since(starts, ends, n)
       <==> starts(n - 1) || (!ends(n - 1) && Since(starts, ends, n - 1))
  {
    if Since(starts, ends, n) {
      var i :| 0 <= i < n && starts(i) && forall j | i < j < n :: !ends(j);
      assert i < n - 1 ==> !ends(n - 1);
    } else {
      assert !starts(n - 1);
      if !ends(n - 1) {
        NotSinceBefore(starts, ends, n);
      }
    }
  }

  lemma NotSinceBefore(starts: Moments, ends: Moments, n: nat)
    requires n > 0 && !Since(starts, ends, n) && !ends(n - 1)
    ensures !Since(starts, ends, n - 1)
  {
    forall i | 0 <= i < n - 1 && starts(i) ensures exists j :: i < j < n - 1 && ends(j) {
      var j :| i < j < n && ends(j);
    }
  }

  lemma SinceAfter(starts: Moments, ends: Moments, n: nat, j: nat) returns (i: nat)
    requires Since(starts, ends, n) && j < n && ends(j) && !starts(j)
    ensures j < i < n && starts(i) && forall k | i < k < n :: !ends(k)
  {
    i :| 0 <= i < n && starts(i) && forall k | i < k < n :: !ends(k);
  }

  lemma NothingSince(starts: Moments, ends: Moments)
    ensures !Since(starts, ends, 0)
  {
  }
}
