/** Packet identifiers and the send quota (connection/flowControl.go). */
module FlowControl {
  import opened Wrappers

  const MAX_ID := 0xFFFF
  const COUNTER_RANGE := 0x1_0000_0000

  /** mqttp.IDType, an unsigned 16-bit number. */
  type Id = x: int | 0 <= x <= MAX_ID

  /** The truncation of the 32-bit counter to an identifier. */
  function Low(counter: nat): Id { counter % (MAX_ID + 1) }

  /** The 32-bit counter after one pass of the loop: zero is skipped. */
  function Bump(counter: nat): nat {
    var c := (counter + 1) % COUNTER_RANGE;
    if Low(c) == 0 then (c + 1) % COUNTER_RANGE else c
  }

  /** How many passes lead from a counter ending in `low` to identifier `id`. */
  function Distance(low: Id, id: Id): int {
    if id > low then id - low else id - low + MAX_ID
  }

  /** Truncation and the 32-bit wrap-around together make every pass go to the
      next identifier of the cycle 1, ..., 65535. */
  lemma BumpIsCyclic(counter: nat)
    requires counter < COUNTER_RANGE
    ensures Bump(counter) < COUNTER_RANGE
    ensures Low(Bump(counter)) == if Low(counter) == MAX_ID then 1 else Low(counter) + 1
  {
    assert COUNTER_RANGE == 0x1_0000 * 0x1_0000;
    var q, l := counter / 0x1_0000, Low(counter);
    assert counter == 0x1_0000 * q + l && q < 0x1_0000;
  }

  function Sum(s: seq<nat>): nat {
    if s == [] then 0 else Sum(s[..|s| - 1]) + s[|s| - 1]
  }

  lemma SumStep(s: seq<nat>, i: nat)
    requires i < |s|
    ensures Sum(s[..i + 1]) == Sum(s[..i]) + s[i]
  {
    assert s[..i + 1][..i] == s[..i];
  }

  /** An identifier a publish may carry and that is not outstanding. */
  predicate Free(inUse: set<Id>, id: Id) { id != 0 && id !in inUse }

  class Flow {
    var inUse: set<Id>
    var counter: nat
    var quota: nat

    ghost predicate Valid()
      reads this
    {
      counter < COUNTER_RANGE
    }

    constructor (quota: nat)
      ensures Valid() && inUse == {} && counter == 0 && this.quota == quota
    {
      inUse, counter, this.quota := {}, 0, quota;
    }

    /** Lowers the quota unless it is zero; returns the value it had.  Before each
        compare-and-swap the readers give back as many units as `given` says; `n` is
        how many of those turns it took. */
    method DecNZ(given: seq<nat>) returns (prev: nat, ghost n: nat)
      modifies this`quota
      ensures n <= |given| && prev == old(quota) + Sum(given[..n])
      ensures quota == if prev == 0 then 0 else prev - 1
    {
      var turn := 0;
      n := 0;
      while true
        invariant n == turn <= |given| && quota == old(quota) + Sum(given[..turn])
        decreases |given| - turn
      {
        prev := quota;
        if prev == 0 {
          return;
        }
        if turn == |given| {
          break;
        }
        SumStep(given, turn);
        quota := quota + given[turn];
        turn, n := turn + 1, n + 1;
        if quota == prev {
          break;
        }
      }
      quota := prev - 1;
    }

    method ReAcquire(id: Id) returns (ok: bool)
      requires Valid()
      modifies this`quota, this`inUse
      ensures Valid() && ok == (old(quota) != 0)
      ensures !ok ==> quota == 0 && inUse == old(inUse)
      ensures ok ==> quota == old(quota) - 1 && inUse == old(inUse) + {id}
    {
      var prev, _ := DecNZ([]);
      if prev == 0 {
        return false;
      }
      inUse := inUse + {id};
      ok := true;
    }

    /** The loop of acquire.  The identifier returned is the first free one of the
        cycle after the counter; when none is free, the one at which the loop gives
        up, which is a duplicate. */
    method Find() returns (id: Id)
      requires Valid()
      modifies this`counter, this`inUse
      ensures Valid() && inUse == old(inUse) + {id}
      ensures Free(old(inUse), id) <==> exists f: Id :: Free(old(inUse), f)
      ensures Free(old(inUse), id) ==>
        && Low(counter) == id
        && forall f: Id :: Free(old(inUse), f) ==> Distance(Low(old(counter)), id) <= Distance(Low(old(counter)), f)
    {
      id := 0;
      ghost var start := Low(counter);
      for count := 0 to 0x1_0000
        invariant counter < COUNTER_RANGE && inUse == old(inUse)
        invariant count == 0 ==> Low(counter) == start
        invariant count > 0 ==> id == Low(counter) && id in inUse
        invariant 0 < count <= MAX_ID ==> Low(counter) != 0 && Distance(start, Low(counter)) == count
        invariant count == MAX_ID + 1 ==> Low(counter) != 0
        invariant forall f: Id :: f != 0 && Distance(start, f) <= count ==> f in inUse
      {
        BumpIsCyclic(counter);
        counter := (counter + 1) % COUNTER_RANGE;
        id := Low(counter);
        if id == 0 {
          counter := (counter + 1) % COUNTER_RANGE;
          id := Low(counter);
        }
        if id !in inUse {
          inUse := inUse + {id};
          return;
        }
      }
      assert inUse + {id} == inUse;
    }

    /** None stands for errQuotaExceeded. */
    method Acquire() returns (r: Option<Id>)
      requires Valid()
      modifies this
      ensures Valid()
      ensures r == None <==> old(quota) == 0
      ensures r == None ==> quota == 0 && inUse == old(inUse) && counter == old(counter)
      ensures r.Some? ==> quota == old(quota) - 1 && inUse == old(inUse) + {r.value}
      ensures r.Some? ==> (Free(old(inUse), r.value) <==> exists id: Id :: Free(old(inUse), id))
      ensures r.Some? && Free(old(inUse), r.value) ==>
        && Low(counter) == r.value
        && forall id: Id :: Free(old(inUse), id) ==>
             Distance(Low(old(counter)), r.value) <= Distance(Low(old(counter)), id)
    {
      var prev, _ := DecNZ([]);
      if prev == 0 {
        return None;
      }
      var id := Find();
      r := Some(id);
    }

    /** Whether the quota became one, that is, whether a blocked queue may move again. */
    method Release(id: Id) returns (first: bool)
      requires Valid()
      modifies this`inUse, this`quota
      ensures Valid() && inUse == old(inUse) - {id} && quota == old(quota) + 1
      ensures first <==> old(quota) == 0
    {
      inUse := inUse - {id};
      quota := quota + 1;
      first := quota == 1;
    }

    method QuotaAvailable() returns (b: bool)
      ensures b <==> quota > 0
    {
      b := quota > 0;
    }
  }

  /** The identifiers 1 to n. */
  function UpTo(n: nat): (s: set<int>)
    ensures forall i :: i in s <==> 1 <= i <= n
    ensures |s| == n
  {
    if n == 0 then {} else UpTo(n - 1) + {n}
  }

  lemma SubsetSize(a: set<int>, b: set<int>)
    requires a <= b
    ensures |a| <= |b|
  {
    assert b == a + (b - a);
  }

  /** With quota left and the quota and the outstanding identifiers together
      within the 65535 of section 2.2.1 of MQTT 5.0, an identifier is free. */
  lemma FreeIdExists(inUse: set<Id>, quota: nat)
    requires quota > 0 && quota + |inUse| <= MAX_ID
    ensures exists id: Id :: Free(inUse, id)
  {
    var all := UpTo(MAX_ID);
    if forall id: Id :: !Free(inUse, id) {
      forall i | i in all ensures i in inUse {
        var id: Id := i;
        assert !Free(inUse, id);
      }
      SubsetSize(all, inUse);
    }
  }
}
