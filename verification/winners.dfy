/** Winner selection: draw up to `winners` participants without replacement
    from a working copy of the participant list.

    The random choice is an oracle `pick`: the i-th draw among `len`
    remaining entries takes position `pick(i, len)`. `Math.floor(
    Math.random() * len)` is one such oracle (MathRandomIsOracle); every
    contract below holds for any oracle, so for whatever values the random
    generator returns. */
module Winners {
  import opened Records

  /** An index oracle: every draw names a valid position. */
  ghost predicate ValidOracle(pick: (nat, nat) -> nat)
  {
    forall i: nat, len: nat :: 0 < len ==> pick(i, len) < len
  }

  /** What `Math.random` promises of every value it returns. */
  ghost predicate UnitInterval(rand: nat -> real)
  {
    forall i: nat :: 0.0 <= rand(i) < 1.0
  }

  function Min(a: int, b: int): int
  {
    if a <= b then a else b
  }

  /** The number of winners a draw yields: the loop stops after `quota`
      draws or when no participant is left, whichever comes first. */
  function WinnerCount(quota: int, n: nat): nat
  {
    if quota <= 0 then 0 else Min(quota, n)
  }

  /** `Math.floor(r * len)`: the position a random value `r` in [0, 1)
      picks among `len` remaining entries. */
  function PickIndex(r: real, len: nat): (k: nat)
    requires 0.0 <= r < 1.0 && 0 < len
    ensures k < len
  {
    var x := r * len as real;
    assert 0.0 <= x < len as real by {
      assert (1.0 - r) * len as real > 0.0;
    }
    x.Floor
  }

  /** Dividing by a positive length preserves order, stated for the two
      comparisons a slice bound needs. */
  lemma DivideByPositive(a: real, r: real, L: real)
    requires L > 0.0
    ensures a / L <= r <==> a <= r * L
    ensures r < a / L <==> r * L < a
  {
  }

  /** `Math.floor` brackets its argument between two consecutive integers. */
  lemma PickIndexBrackets(r: real, len: nat)
    requires 0.0 <= r < 1.0 && 0 < len
    ensures PickIndex(r, len) as real <= r * len as real < (PickIndex(r, len) + 1) as real
  {
  }

  /** Each position is picked on a slice of [0, 1) of width 1 / len, so
      every remaining participant is equally likely to be drawn next. */
  lemma PickIndexSlice(r: real, len: nat, k: nat)
    requires 0.0 <= r < 1.0 && 0 < len && k < len
    ensures PickIndex(r, len) == k <==> k as real / len as real <= r < (k + 1) as real / len as real
  {
    PickIndexBrackets(r, len);
    DivideByPositive(k as real, r, len as real);
    DivideByPositive((k + 1) as real, r, len as real);
  }

  /** The oracle bot.js uses: the i-th draw is `Math.floor(rand(i) * len)`. */
  function MathRandomPick(rand: nat -> real): (nat, nat) -> nat
  {
    (i: nat, len: nat) => if 0 < len && 0.0 <= rand(i) < 1.0 then PickIndex(rand(i), len) else 0
  }

  /** Whatever values `Math.random` returns, flooring them against the
      remaining length always yields a valid position. */
  lemma MathRandomIsOracle(rand: nat -> real)
    requires UnitInterval(rand)
    ensures ValidOracle(MathRandomPick(rand))
  {
    forall i: nat, len: nat | 0 < len ensures MathRandomPick(rand)(i, len) < len {
      assert 0.0 <= rand(i) < 1.0;
    }
  }

  /** `splice(k, 1)`: the list without its entry at position `k`. */
  function RemoveAt(ps: seq<Participant>, k: nat): (rest: seq<Participant>)
    requires k < |ps|
    ensures |rest| == |ps| - 1
  {
    ps[..k] + ps[k + 1..]
  }

  /** Removing one entry takes exactly that entry out of the multiset. */
  lemma RemoveAtMultiset(ps: seq<Participant>, k: nat)
    requires k < |ps|
    ensures multiset(RemoveAt(ps, k)) + multiset{ps[k]} == multiset(ps)
  {
    assert ps == ps[..k] + [ps[k]] + ps[k + 1..];
  }

  /** The winners drawn from `pool` with `quota` draws still allowed, when
      the next draw is draw number `step` of the oracle. */
  function Draw(pool: seq<Participant>, quota: int, pick: (nat, nat) -> nat, step: nat): (w: seq<Participant>)
    requires ValidOracle(pick)
    ensures |w| == WinnerCount(quota, |pool|)
    decreases |pool|
  {
    if quota <= 0 || pool == [] then []
    else
      var k := pick(step, |pool|);
      [pool[k]] + Draw(RemoveAt(pool, k), quota - 1, pick, step + 1)
  }

  /** pickWinners: counted loop over a copy of the participants; each round
      picks a random remaining entry, records it and removes it from the
      copy. The caller's list is a value and is left as it was. */
  method PickWinners(participants: seq<Participant>, winners: int, pick: (nat, nat) -> nat)
    returns (picked: seq<Participant>)
    requires ValidOracle(pick)
    ensures picked == Draw(participants, winners, pick, 0)
    ensures |picked| == WinnerCount(winners, |participants|)
    ensures multiset(picked) <= multiset(participants)
    ensures winners >= |participants| ==> multiset(picked) == multiset(participants)
    ensures DistinctUsers(participants) ==> DistinctUsers(picked)
  {
    picked := [];
    var pool := participants;
    var i: nat := 0;
    ghost var all := Draw(participants, winners, pick, 0);
    assert Draw(pool, winners - i, pick, i) == all;
    assert picked + all == all;
    while i < winners && |pool| > 0
      invariant picked + Draw(pool, winners - i, pick, i) == all
      decreases |pool|
    {
      var idx := pick(i, |pool|);
      ghost var rest := Draw(RemoveAt(pool, idx), winners - i - 1, pick, i + 1);
      assert Draw(pool, winners - i, pick, i) == [pool[idx]] + rest;
      assert picked + ([pool[idx]] + rest) == (picked + [pool[idx]]) + rest;
      picked := picked + [pool[idx]];
      pool := RemoveAt(pool, idx);
      i := i + 1;
      assert Draw(pool, winners - i, pick, i) == rest;
    }
    assert Draw(pool, winners - i, pick, i) == [];
    assert picked + [] == picked;
    DrawSubMultiset(participants, winners, pick, 0);
    if winners >= |participants| {
      DrawAll(participants, winners, pick, 0);
    }
    if DistinctUsers(participants) {
      DrawDistinct(participants, winners, pick, 0);
    }
  }

  /** No participant position is drawn twice: the winners, as a multiset,
      are contained in the participants. */
  lemma {:induction false} DrawSubMultiset(pool: seq<Participant>, quota: int, pick: (nat, nat) -> nat, step: nat)
    requires ValidOracle(pick)
    ensures multiset(Draw(pool, quota, pick, step)) <= multiset(pool)
    decreases |pool|
  {
    if quota > 0 && pool != [] {
      var k := pick(step, |pool|);
      var rest := RemoveAt(pool, k);
      DrawSubMultiset(rest, quota - 1, pick, step + 1);
      RemoveAtMultiset(pool, k);
      var tail := Draw(rest, quota - 1, pick, step + 1);
      assert Draw(pool, quota, pick, step) == [pool[k]] + tail;
      assert multiset([pool[k]] + tail) == multiset{pool[k]} + multiset(tail);
    }
  }

  /** Every winner is one of the participants. */
  lemma DrawFromPool(pool: seq<Participant>, quota: int, pick: (nat, nat) -> nat, step: nat, w: Participant)
    requires ValidOracle(pick)
    requires w in Draw(pool, quota, pick, step)
    ensures w in pool
  {
    DrawSubMultiset(pool, quota, pick, step);
    assert w in multiset(Draw(pool, quota, pick, step));
  }

  /** When participants have distinct user ids, so do the winners: no one
      wins twice. */
  lemma {:induction false} DrawDistinct(pool: seq<Participant>, quota: int, pick: (nat, nat) -> nat, step: nat)
    requires ValidOracle(pick)
    requires DistinctUsers(pool)
    ensures DistinctUsers(Draw(pool, quota, pick, step))
    decreases |pool|
  {
    if quota > 0 && pool != [] {
      var k := pick(step, |pool|);
      var rest := RemoveAt(pool, k);
      assert rest == pool[..k] + pool[k + 1..];
      assert DistinctUsers(rest) by {
        forall a, b | 0 <= a < b < |rest| ensures rest[a].userId != rest[b].userId {
          var a', b' := if a < k then a else a + 1, if b < k then b else b + 1;
          assert rest[a] == pool[a'] && rest[b] == pool[b'];
        }
      }
      DrawDistinct(rest, quota - 1, pick, step + 1);
      var tail := Draw(rest, quota - 1, pick, step + 1);
      var w := [pool[k]] + tail;
      forall a, b | 0 <= a < b < |w| ensures w[a].userId != w[b].userId {
        if a == 0 {
          DrawFromPool(rest, quota - 1, pick, step + 1, w[b]);
          var j :| 0 <= j < |rest| && rest[j] == w[b];
          var j' := if j < k then j else j + 1;
          assert pool[j'] == w[b];
        } else {
          assert w[a] == tail[a - 1] && w[b] == tail[b - 1];
        }
      }
    }
  }

  /** When the quota covers every participant, everyone wins: the winners
      are the participants in drawn order. */
  lemma {:induction false} DrawAll(pool: seq<Participant>, quota: int, pick: (nat, nat) -> nat, step: nat)
    requires ValidOracle(pick)
    requires quota >= |pool|
    ensures multiset(Draw(pool, quota, pick, step)) == multiset(pool)
    decreases |pool|
  {
    if pool != [] {
      var k := pick(step, |pool|);
      var rest := RemoveAt(pool, k);
      DrawAll(rest, quota - 1, pick, step + 1);
      RemoveAtMultiset(pool, k);
      var tail := Draw(rest, quota - 1, pick, step + 1);
      assert Draw(pool, quota, pick, step) == [pool[k]] + tail;
      assert multiset([pool[k]] + tail) == multiset{pool[k]} + multiset(tail);
    }
  }
}
