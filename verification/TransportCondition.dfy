/** The bounded reporter of a repeating condition: one line when it starts or changes, then at doubling counts. */
module TransportCondition {

  datatype Condition = Answered | TimedOut | Unreadable | Refused | Canceled | Unclassified

  /** The bitwise and of two numbers. */
  function And(a: nat, b: nat): nat {
    if a == 0 || b == 0 then 0 else 2 * And(a / 2, b / 2) + if a % 2 == 1 && b % 2 == 1 then 1 else 0
  }

  predicate PowerOfTwo(n: nat) { n == 1 || (n > 1 && n % 2 == 0 && PowerOfTwo(n / 2)) }

  /** The number of halvings to one. */
  function Log2(n: nat): nat
    requires n > 0
  {
    if n == 1 then 0 else 1 + Log2(n / 2)
  }

  /** The test on a count's bits is the test for a power of two. */
  lemma {:induction false} BitTestIsPowerOfTwo(n: nat)
    requires n > 0
    ensures And(n, n - 1) == 0 <==> PowerOfTwo(n)
  {
    if n > 1 {
      if n % 2 == 0 {
        assert (n - 1) / 2 == n / 2 - 1;
        BitTestIsPowerOfTwo(n / 2);
      } else {
        assert (n - 1) / 2 == n / 2;
        AndSelf(n / 2);
      }
    }
  }

  lemma {:induction false} AndSelf(n: nat)
    ensures And(n, n) == n
  {
    if n > 0 {
      AndSelf(n / 2);
      assert n == 2 * (n / 2) + n % 2;
    }
  }

  /** Counting one further passes one more halving exactly at a power of two. */
  lemma {:induction false} LogSteps(n: nat)
    requires n > 0
    ensures Log2(n + 1) == Log2(n) + if PowerOfTwo(n + 1) then 1 else 0
  {
    if n > 1 {
      var half := n / 2;
      assert Log2(n) == 1 + Log2(half) && Log2(n + 1) == 1 + Log2((n + 1) / 2);
      if n % 2 == 1 {
        assert (n + 1) / 2 == half + 1;
        assert PowerOfTwo(n + 1) <==> PowerOfTwo(half + 1);
        hide Log2, PowerOfTwo;
        LogSteps(half);
      } else {
        assert (n + 1) / 2 == half;
      }
    }
  }

  class ConditionLog {
    var condition: Condition
    var count: nat
    // Lines written for the condition in force.
    ghost var lines: nat

    /** However long a condition repeats, its lines are one and the logarithm of its occurrences. */
    ghost predicate Valid()
      reads this
    {
      if condition == Answered then count == lines == 0 else count > 0 && lines == 1 + Log2(count)
    }

    constructor ()
      ensures Valid() && condition == Answered
    {
      condition, count, lines := Answered, 0, 0;
    }

    method Observe(observed: Condition) returns (write: bool)
      requires Valid() && observed != Answered
      modifies this
      ensures Valid() && condition == observed
      ensures count == if old(condition) == observed then old(count) + 1 else 1
      ensures write <==> old(condition) != observed || PowerOfTwo(count)
    {
      if condition != observed {
        condition, count, lines := observed, 1, 1;
        return true;
      }
      LogSteps(count);
      count := count + 1;
      BitTestIsPowerOfTwo(count);
      if And(count, count - 1) != 0 {
        return false;
      }
      lines := lines + 1;
      return true;
    }

    method Clear() returns (write: bool)
      requires Valid()
      modifies this
      ensures Valid() && condition == Answered && write == (old(condition) != Answered)
    {
      write := condition != Answered;
      condition, count, lines := Answered, 0, 0;
    }
  }
}
