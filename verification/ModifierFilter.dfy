/**
 Choosing the usable modifiers of a dma-buf format.

 The modifiers that work only with external textures are removed from the array in place, by
 moving the rest of the array down over each of them.
 */
module ModifierFilter {
  /** The modifiers among the first n that are not external only, in their order. */
  function Kept(modifiers: seq<nat>, externalOnly: seq<bool>, n: nat): seq<nat>
    requires n <= |modifiers| && n <= |externalOnly|
  {
    if n == 0 then []
    else if externalOnly[n - 1] then Kept(modifiers, externalOnly, n - 1)
    else Kept(modifiers, externalOnly, n - 1) + [modifiers[n - 1]]
  }

  /** How many in front of position i are kept. */
  function Rank(externalOnly: seq<bool>, i: nat): nat
    requires i <= |externalOnly|
  {
    if i == 0 then 0 else Rank(externalOnly, i - 1) + if externalOnly[i - 1] then 0 else 1
  }

  /** What is kept ends up at its rank, and there is nothing else. */
  lemma {:induction false} KeptAtRank(modifiers: seq<nat>, externalOnly: seq<bool>, n: nat, i: nat)
    requires i < n <= |modifiers| && n <= |externalOnly|
    ensures |Kept(modifiers, externalOnly, n)| == Rank(externalOnly, n)
    ensures !externalOnly[i] ==> Rank(externalOnly, i) < Rank(externalOnly, n)
    ensures !externalOnly[i] ==> Kept(modifiers, externalOnly, n)[Rank(externalOnly, i)] == modifiers[i]
  {
    if i < n - 1 {
      KeptAtRank(modifiers, externalOnly, n - 1, i);
    } else {
      KeptLength(modifiers, externalOnly, i);
    }
  }

  lemma {:induction false} KeptLength(modifiers: seq<nat>, externalOnly: seq<bool>, n: nat)
    requires n <= |modifiers| && n <= |externalOnly|
    ensures |Kept(modifiers, externalOnly, n)| == Rank(externalOnly, n)
  {
    if n > 0 {
      KeptLength(modifiers, externalOnly, n - 1);
    }
  }

  /** Moves n elements down by one place. */
  method MoveDown(a: array<nat>, to: nat, n: nat)
    requires to + n < a.Length || (n == 0 && to <= a.Length)
    modifies a
    ensures n > 0 ==> a[to..to + n] == old(a[to + 1..to + n + 1])
    ensures a[..to] == old(a[..to]) && a[to + n..] == old(a[to + n..])
  {
    for d := 0 to n
      invariant forall k :: to <= k < to + d ==> a[k] == old(a[k + 1])
      invariant forall k :: 0 <= k < a.Length && !(to <= k < to + d) ==> a[k] == old(a[k])
    {
      a[to + d] := a[to + d + 1];
    }
  }

  /** The first of the elements that are still to be looked at. */
  lemma {:induction false} NextUnread(now: seq<nat>, before: seq<nat>, i: nat, j: nat, n: nat, count: nat)
    requires j < n <= |now| && i < count <= |before| && now[j..n] == before[i..count]
    ensures now[..j + 1] == now[..j] + [before[i]] && now[j + 1..n] == before[i + 1..count]
  {
    assert now[j] == now[j..n][0] == before[i..count][0];
    assert now[j..n][1..] == now[j + 1..n] && before[i..count][1..] == before[i + 1..count];
  }

  lemma {:induction false} RestMoved(now: seq<nat>, moved: seq<nat>, j: nat, n: nat, count: nat)
    requires j <= n < count <= |now| && |moved| == |now|
    requires n > j ==> moved[j..n] == now[j + 1..n + 1]
    requires moved[n..] == now[n..]
    ensures moved[j..n] == now[j + 1..n + 1] && moved[count..] == now[count..]
  {
    assert moved[count..] == moved[n..][count - n..] && now[count..] == now[n..][count - n..];
  }

  method RemoveExternalOnly(modifiers: array<nat>, externalOnly: array<bool>, count: nat) returns (n: nat)
    requires count <= modifiers.Length && count <= externalOnly.Length
    modifies modifiers
    ensures n == |Kept(old(modifiers[..]), externalOnly[..], count)| <= count
    ensures modifiers[..n] == Kept(old(modifiers[..]), externalOnly[..], count)
    ensures modifiers[count..] == old(modifiers[count..])
  {
    ghost var before, external := modifiers[..], externalOnly[..];
    n := count;
    var i, j := 0, 0;
    while j < n
      invariant 0 <= j <= n <= count && i + (n - j) == count && i <= count
      invariant modifiers[..j] == Kept(before, external, i)
      invariant modifiers[j..n] == before[i..count]
      invariant modifiers[count..] == before[count..]
      decreases count - i
    {
      ghost var now := modifiers[..];
      NextUnread(now, before, i, j, n, count);
      if externalOnly[i] {
        n := n - 1;
        MoveDown(modifiers, j, n - j);
        RestMoved(now, modifiers[..], j, n, count);
      } else {
        j := j + 1;
      }
      i := i + 1;
    }
  }
}
