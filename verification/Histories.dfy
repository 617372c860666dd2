/** What has happened since: the n-th event of a history registers or forgets something. */
module Histories {

  /** The i-th event registers, and none between it and `end` forgets. */
  ghost predicate KeptAt(registers: nat -> bool, forgets: nat -> bool, end: nat, i: nat) {
    i < end && registers(i) && forall j: nat :: i < j < end ==> !forgets(j)
  }

  /** Something was registered and not forgotten since. */
  ghost predicate Since(registers: nat -> bool, forgets: nat -> bool, end: nat) {
    exists i: nat :: KeptAt(registers, forgets, end, i)
  }

  /** The earliest registration not forgotten since. */
  ghost predicate FirstKept(registers: nat -> bool, forgets: nat -> bool, end: nat, i: nat) {
    KeptAt(registers, forgets, end, i) && forall h: nat :: h < i ==> !KeptAt(registers, forgets, end, h)
  }

  lemma KeptNext(registers: nat -> bool, forgets: nat -> bool, n: nat, i: nat)
    ensures KeptAt(registers, forgets, n + 1, i) <==>
            (i == n && registers(n)) || (KeptAt(registers, forgets, n, i) && !forgets(n))
  {
  }

  lemma SinceNext(registers: nat -> bool, forgets: nat -> bool, n: nat)
    ensures Since(registers, forgets, n + 1) <==> registers(n) || (!forgets(n) && Since(registers, forgets, n))
  {
    if registers(n) {
      KeptNext(registers, forgets, n, n);
    } else if Since(registers, forgets, n) {
      var i: nat :| KeptAt(registers, forgets, n, i);
      KeptNext(registers, forgets, n, i);
    }
    if Since(registers, forgets, n + 1) {
      var i: nat :| KeptAt(registers, forgets, n + 1, i);
      KeptNext(registers, forgets, n, i);
    }
  }

  /** The earliest one stays the earliest until it is forgotten; a new one is the earliest only after that. */
  lemma FirstKeptNext(registers: nat -> bool, forgets: nat -> bool, n: nat, i: nat)
    ensures FirstKept(registers, forgets, n + 1, i) <==>
            if !forgets(n) && Since(registers, forgets, n) then FirstKept(registers, forgets, n, i)
            else i == n && registers(n)
  {
    var end := n + 1;
    forall h: nat
      ensures KeptAt(registers, forgets, end, h) <==>
              (h == n && registers(n)) || (KeptAt(registers, forgets, n, h) && !forgets(n))
    {
      KeptNext(registers, forgets, n, h);
    }
    assert forall h: nat :: KeptAt(registers, forgets, n, h) ==> h < n;
    if !forgets(n) && Since(registers, forgets, n) {
      var h: nat :| KeptAt(registers, forgets, n, h);
      assert KeptAt(registers, forgets, end, h) && h < n;
    } else {
      assert forall h: nat :: KeptAt(registers, forgets, end, h) ==> h == n;
    }
  }

  /** There is an earliest one whenever there is one. */
  lemma EarliestKept(registers: nat -> bool, forgets: nat -> bool, end: nat) returns (i: nat)
    requires Since(registers, forgets, end)
    ensures FirstKept(registers, forgets, end, i)
  {
    i := 0;
    while !KeptAt(registers, forgets, end, i)
      invariant forall h: nat :: h < i ==> !KeptAt(registers, forgets, end, h)
      invariant i <= end
      decreases end - i
    {
      i := i + 1;
    }
  }

  /** Histories that agree up to n have kept the same. */
  lemma SameHistory(registers: nat -> bool, forgets: nat -> bool, registers': nat -> bool, forgets': nat -> bool, n: nat)
    requires forall i: nat :: i < n ==> registers(i) == registers'(i) && forgets(i) == forgets'(i)
    ensures Since(registers, forgets, n) == Since(registers', forgets', n)
    ensures forall i: nat :: FirstKept(registers, forgets, n, i) == FirstKept(registers', forgets', n, i)
  {
    assert forall i: nat :: KeptAt(registers, forgets, n, i) == KeptAt(registers', forgets', n, i);
  }
}
