/** Elementary facts about the value model that several proofs share. */
module BookLemmas {
  import opened BookSpec

  lemma WithoutKeeps<T>(s: seq<T>, k: nat)
    requires k < |s|
    ensures |Without(s, k)| == |s| - 1 && forall i | 0 <= i < |s| - 1 :: Without(s, k)[i] in s
    ensures forall x | x in s && x != s[k] :: x in Without(s, k)
  {
    forall x | x in s && x != s[k] ensures x in Without(s, k) {
      var i :| 0 <= i < |s| && s[i] == x;
      assert Without(s, k)[if i < k then i else i - 1] == x;
    }
  }

  lemma WithoutUpdate<T>(s: seq<T>, k: nat, x: T)
    requires k < |s|
    ensures Without(s[k := x], k) == Without(s, k)
  {
  }

  predicate AllPositive(queue: seq<Entry>) {
    forall i | 0 <= i < |queue| :: queue[i].rem > 0
  }

  lemma PositiveWithout(queue: seq<Entry>, k: nat)
    requires AllPositive(queue) && k < |queue|
    ensures AllPositive(Without(queue, k))
  {
  }

  lemma EmptyVolume()
    ensures Volume([]) == 0
  {
  }

  lemma {:induction false} VolumeAppend(a: seq<Entry>, b: seq<Entry>)
    ensures Volume(a + b) == Volume(a) + Volume(b)
  {
    if a == [] {
      assert a + b == b;
    } else {
      assert (a + b)[1..] == a[1..] + b;
      VolumeAppend(a[1..], b);
    }
  }

  /** The 64-bit counter stays congruent to the true sum under any shift. */
  lemma ModShift(v: int, d: int)
    ensures (v % TWO64 + d) % TWO64 == (v + d) % TWO64
  {
  }

  lemma VolumeRemove(q: seq<Entry>, k: nat)
    requires k < |q|
    ensures Volume(Without(q, k)) == Volume(q) - q[k].rem
  {
    VolumeAppend(q[..k], q[k+1..]);
    VolumeAppend(q[..k], q[k..]);
    assert q == q[..k] + q[k..];
    assert q[k..][1..] == q[k+1..];
  }
}
