/**
 * The three store keys an object-processing task uses per tenant instance:
 * the task key `<name>:<instance pk>`, the attempt counter key
 * `attempt:<task key>` and the lock key `lock:<task key>`.
 */
module TaskKeys {
  import opened Decimal

  function TaskKey(name: string, instancePk: int): (k: string)
    ensures |k| > |name| && k[..|name|] == name && k[|name|] == ':'
    ensures k[|name| + 1..] == IntToString(instancePk)
  {
    name + ":" + IntToString(instancePk)
  }

  function AttemptKey(name: string, instancePk: int): (k: string)
    ensures |k| > 8 && k[..8] == "attempt:" && k[8..] == TaskKey(name, instancePk)
  {
    "attempt:" + TaskKey(name, instancePk)
  }

  function LockKey(name: string, instancePk: int): (k: string)
    ensures |k| > 5 && k[..5] == "lock:" && k[5..] == TaskKey(name, instancePk)
  {
    "lock:" + TaskKey(name, instancePk)
  }

  /**
   * The separator is the last ':' of a task key, because the decimal text
   * of the primary key contains none: the key determines its suffix length.
   */
  lemma SeparatorIsLast(name: string, pk: int, i: int)
    requires |name| < i < |TaskKey(name, pk)|
    ensures TaskKey(name, pk)[i] != ':'
  {
    var k := TaskKey(name, pk);
    var s := IntToString(pk);
    assert k[i] == s[i - |name| - 1];
  }

  /** Two task keys are equal only when both the name and the instance are. */
  lemma TaskKeyInjective(n1: string, p1: int, n2: string, p2: int)
    ensures TaskKey(n1, p1) == TaskKey(n2, p2) ==> n1 == n2 && p1 == p2
  {
    var k1, k2 := TaskKey(n1, p1), TaskKey(n2, p2);
    if k1 == k2 {
      if |n1| < |n2| {
        SeparatorIsLast(n1, p1, |n2|);
        assert false;
      } else if |n2| < |n1| {
        SeparatorIsLast(n2, p2, |n1|);
        assert false;
      }
      assert n1 == k1[..|n1|] == n2;
      assert IntToString(p1) == k1[|n1| + 1..] == IntToString(p2);
      IntToStringInjective(p1, p2);
    }
  }

  /** Each task and instance has its own attempt counter. */
  lemma AttemptKeyInjective(n1: string, p1: int, n2: string, p2: int)
    ensures AttemptKey(n1, p1) == AttemptKey(n2, p2) ==> n1 == n2 && p1 == p2
  {
    var a1, a2 := AttemptKey(n1, p1), AttemptKey(n2, p2);
    if a1 == a2 {
      assert TaskKey(n1, p1) == a1[8..] == TaskKey(n2, p2);
      TaskKeyInjective(n1, p1, n2, p2);
    }
  }

  /** Each task and instance has its own lock. */
  lemma LockKeyInjective(n1: string, p1: int, n2: string, p2: int)
    ensures LockKey(n1, p1) == LockKey(n2, p2) ==> n1 == n2 && p1 == p2
  {
    var l1, l2 := LockKey(n1, p1), LockKey(n2, p2);
    if l1 == l2 {
      assert TaskKey(n1, p1) == l1[5..] == TaskKey(n2, p2);
      TaskKeyInjective(n1, p1, n2, p2);
    }
  }

  /** An attempt counter never shares its key with a lock, whatever the tasks. */
  lemma AttemptKeyIsNotLockKey(n1: string, p1: int, n2: string, p2: int)
    ensures AttemptKey(n1, p1) != LockKey(n2, p2)
  {
    assert AttemptKey(n1, p1)[0] == 'a';
    assert LockKey(n2, p2)[0] == 'l';
  }
}
