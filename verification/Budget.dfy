/** Budgets of attempts over the rows of a table. */
module Budget {

  function Sum(s: seq<nat>): (n: nat) { if s == [] then 0 else s[0] + Sum(s[1..]) }

  lemma {:induction false} SumAppend(s: seq<nat>, x: nat)
    ensures Sum(s + [x]) == Sum(s) + x
  {
    if s != [] {
      assert (s + [x])[1..] == s[1..] + [x];
      SumAppend(s[1..], x);
    } else {
      assert s + [x] == [x];
    }
  }

  lemma {:induction false} SumUpdate(s: seq<nat>, i: nat, x: nat)
    requires i < |s|
    ensures Sum(s[i := x]) + s[i] == Sum(s) + x
  {
    if i == 0 {
      assert s[i := x][1..] == s[1..];
    } else {
      assert s[i := x][1..] == s[1..][i - 1 := x];
      SumUpdate(s[1..], i - 1, x);
    }
  }

  lemma {:induction false} SumMonotone(s: seq<nat>, t: seq<nat>)
    requires |s| == |t| && forall k | 0 <= k < |s| :: t[k] <= s[k]
    ensures Sum(t) <= Sum(s)
  {
    if s != [] { SumMonotone(s[1..], t[1..]); }
  }

  /** Lowering the entries of a batch of distinct rows lowers the sum by at least the size of the batch. */
  lemma {:induction false} BatchLowers(s: seq<nat>, t: seq<nat>, batch: seq<nat>)
    requires |s| == |t| && (forall i | 0 <= i < |batch| :: batch[i] < |s| && t[batch[i]] + 1 <= s[batch[i]])
    requires forall i, j | 0 <= i < j < |batch| :: batch[i] != batch[j]
    requires forall k | 0 <= k < |s| && k !in batch :: t[k] <= s[k]
    ensures Sum(t) + |batch| <= Sum(s)
    decreases |batch|
  {
    if batch == [] {
      SumMonotone(s, t);
    } else {
      var b, rest := batch[0], batch[1..];
      var s' := s[b := t[b]];
      SumUpdate(s, b, t[b]);
      assert forall i | 0 <= i < |rest| :: rest[i] == batch[i + 1] && rest[i] != b;
      BatchLowers(s', t, rest);
    }
  }

  function IndexOf(rows: seq<nat>, k: nat): (i: nat)
    requires k in rows
    ensures i < |rows| && rows[i] == k
  {
    if rows[0] == k then 0 else 1 + IndexOf(rows[1..], k)
  }

  function Pow2(n: nat): (p: nat)
    ensures p >= 1
  {
    if n == 0 then 1 else 2 * Pow2(n - 1)
  }
}
