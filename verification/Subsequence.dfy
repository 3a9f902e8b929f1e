/** The greedy subsequence test of the name search. */
module Subsequence {
  import opened UriComponents

  /** Strictly increasing positions at which `target` shows `query`. */
  predicate Embeds(query: Text, target: Text, at: seq<nat>) {
    && |at| == |query|
    && (forall i | 0 <= i < |at| :: at[i] < |target| && target[at[i]] == query[i])
    && (forall i, j | 0 <= i < j < |at| :: at[i] < at[j])
  }

  ghost predicate IsSubsequenceOf(query: Text, target: Text) {
    exists at: seq<nat> :: Embeds(query, target, at)
  }

  /** From position `i` on, the characters of a text that are single code units: a pair of surrogates is
      one character, and equals no unit of a query. */
  function SinglesFrom(target: Text, i: nat): Text
    requires i <= |target|
    decreases |target| - i
  {
    if i == |target| then []
    else
      var point := PointAt(target[i..]);
      if point.Point? && point.width == 2 then SinglesFrom(target, i + 2) else [target[i]] + SinglesFrom(target, i + 1)
  }

  lemma {:induction false} SinglesOfBmp(target: Text, i: nat)
    requires i <= |target| && forall j | 0 <= j < |target| :: !IsLead(target[j])
    ensures SinglesFrom(target, i) == target[i..]
    decreases |target| - i
  {
    if i < |target| {
      SinglesOfBmp(target, i + 1);
      assert target[i..] == [target[i]] + target[i + 1..];
    }
  }

  /** Half of a surrogate pair. */
  predicate IsHalf(target: Text, i: nat)
    requires i < |target|
  {
    || (0xD800 <= target[i] <= 0xDBFF && i + 1 < |target| && 0xDC00 <= target[i + 1] <= 0xDFFF)
    || (0xDC00 <= target[i] <= 0xDFFF && i > 0 && 0xD800 <= target[i - 1] <= 0xDBFF)
  }

  function WithoutHalves(target: Text, i: nat): Text
    requires i <= |target|
    decreases |target| - i
  {
    if i == |target| then []
    else if IsHalf(target, i) then WithoutHalves(target, i + 1)
    else [target[i]] + WithoutHalves(target, i + 1)
  }

  /** What is dropped is exactly the halves of surrogate pairs; a lone surrogate is a character of its own. */
  lemma {:induction false} SinglesAreUnpaired(target: Text, i: nat)
    requires i <= |target|
    requires 0 < i < |target| ==> !(0xD800 <= target[i - 1] <= 0xDBFF && 0xDC00 <= target[i] <= 0xDFFF)
    ensures SinglesFrom(target, i) == WithoutHalves(target, i)
    decreases |target| - i
  {
    if i < |target| {
      var point := PointAt(target[i..]);
      if i + 1 < |target| {
        assert target[i..][1] == target[i + 1];
      }
      if point.Point? && point.width == 2 {
        assert IsHalf(target, i) && IsHalf(target, i + 1);
        SinglesAreUnpaired(target, i + 2);
      } else {
        SinglesAreUnpaired(target, i + 1);
      }
    }
  }

  // ---- embeddings, unit by unit ----

  /** A query whose last unit is not the target's last does not need it. */
  lemma LastIsNotUsed(query: Text, seen: Text, u: Unit)
    requires query != [] && query[|query| - 1] != u
    ensures IsSubsequenceOf(query, seen + [u]) ==> IsSubsequenceOf(query, seen)
  {
    if IsSubsequenceOf(query, seen + [u]) {
      var at: seq<nat> :| Embeds(query, seen + [u], at);
      var last := |query| - 1;
      assert at[last] < |seen|;
      assert forall i | 0 <= i < last :: at[i] < at[last];
      assert Embeds(query, seen, at);
    }
  }

  /** Without its last unit, a query needs one unit of the target less. */
  lemma ShorterEmbeds(query: Text, seen: Text, u: Unit)
    requires query != []
    ensures IsSubsequenceOf(query, seen + [u]) ==> IsSubsequenceOf(query[..|query| - 1], seen)
  {
    if IsSubsequenceOf(query, seen + [u]) {
      var at: seq<nat> :| Embeds(query, seen + [u], at);
      var last := |query| - 1;
      assert forall i | 0 <= i < last :: at[i] < at[last] <= |seen|;
      assert Embeds(query[..last], seen, at[..last]);
    }
  }

  lemma OneMoreEmbeds(query: Text, seen: Text, u: Unit)
    requires IsSubsequenceOf(query, seen)
    ensures IsSubsequenceOf(query + [u], seen + [u]) && IsSubsequenceOf(query, seen + [u])
  {
    var at: seq<nat> :| Embeds(query, seen, at);
    assert Embeds(query, seen + [u], at);
    assert Embeds(query + [u], seen + [u], at + [|seen|]);
  }

  lemma MoreTargetEmbeds(query: Text, seen: Text, rest: Text)
    requires IsSubsequenceOf(query, seen)
    ensures IsSubsequenceOf(query, seen + rest)
  {
    var at: seq<nat> :| Embeds(query, seen, at);
    assert Embeds(query, seen + rest, at);
  }

  lemma LessQueryEmbeds(query: Text, n: nat, seen: Text)
    requires n <= |query|
    ensures IsSubsequenceOf(query, seen) ==> IsSubsequenceOf(query[..n], seen)
  {
    if IsSubsequenceOf(query, seen) {
      var at: seq<nat> :| Embeds(query, seen, at);
      assert Embeds(query[..n], seen, at[..n]);
    }
  }

  // ---- the greedy matcher ----

  /** The longest prefix of the query that the target so far shows has `n` units. */
  ghost predicate Matched(query: Text, n: nat, seen: Text) {
    n < |query| && IsSubsequenceOf(query[..n], seen) && !IsSubsequenceOf(query[..n + 1], seen)
  }

  lemma NothingToShow(query: Text)
    requires query != []
    ensures !IsSubsequenceOf(query, [])
  {
    forall at: seq<nat>
      ensures !Embeds(query, [], at)
    {
      if at != [] {
        assert at[0] >= 0;
      }
    }
  }

  lemma NothingMatched(query: Text)
    requires query != []
    ensures Matched(query, 0, [])
  {
    assert Embeds(query[..0], [], []);
    NothingToShow(query[..1]);
  }

  lemma GreedyHit(query: Text, n: nat, seen: Text, u: Unit)
    requires Matched(query, n, seen) && query[n] == u
    ensures IsSubsequenceOf(query[..n + 1], seen + [u])
    ensures n + 1 < |query| ==> Matched(query, n + 1, seen + [u])
  {
    OneMoreEmbeds(query[..n], seen, u);
    assert query[..n] + [u] == query[..n + 1];
    if n + 1 < |query| {
      ShorterEmbeds(query[..n + 2], seen, u);
      assert query[..n + 2][..n + 1] == query[..n + 1];
    }
  }

  lemma GreedyMiss(query: Text, n: nat, seen: Text, u: Unit)
    requires Matched(query, n, seen) && query[n] != u
    ensures Matched(query, n, seen + [u])
  {
    OneMoreEmbeds(query[..n], seen, u);
    LastIsNotUsed(query[..n + 1], seen, u);
  }

  lemma Regroup(a: Text, u: Unit, b: Text)
    ensures a + ([u] + b) == a + [u] + b
  {
  }

  /** True exactly when the query is not empty and its units stand in this order among the single-unit
      characters of the target. */
  method IsSubsequence(query: Text, target: Text) returns (found: bool)
    ensures found <==> query != [] && IsSubsequenceOf(query, SinglesFrom(target, 0))
  {
    var queryIndex: nat := 0;
    var i: nat := 0;
    ghost var seen: Text := [];
    ghost var singles := SinglesFrom(target, 0);
    if query != [] {
      NothingMatched(query);
    }
    assert [] + singles == singles;
    while i < |target|
      invariant i <= |target| && singles == seen + SinglesFrom(target, i)
      invariant query != [] ==> Matched(query, queryIndex, seen)
      decreases |target| - i
    {
      var point := PointAt(target[i..]);
      if point.Point? && point.width == 2 {
        i := i + 2;
        continue;
      }
      ghost var before := seen;
      seen := seen + [target[i]];
      Regroup(before, target[i], SinglesFrom(target, i + 1));
      if query != [] && target[i] == query[queryIndex] {
        GreedyHit(query, queryIndex, before, target[i]);
        queryIndex := queryIndex + 1;
        if queryIndex == |query| {
          assert query[..queryIndex] == query;
          MoreTargetEmbeds(query, seen, SinglesFrom(target, i + 1));
          return true;
        }
      } else if query != [] {
        GreedyMiss(query, queryIndex, before, target[i]);
      }
      i := i + 1;
    }
    assert seen + [] == seen;
    if query != [] {
      LessQueryEmbeds(query, queryIndex + 1, seen);
    }
    return false;
  }

  /** A character outside the basic plane is never matched, not even by itself. */
  lemma AstralNeverMatches()
    ensures var face: Text := [0xD83D, 0xDE00]; !IsSubsequenceOf(face, SinglesFrom(face, 0)) && IsSubsequenceOf(face, face)
  {
    var face: Text := [0xD83D, 0xDE00];
    assert face[0..] == face && PointAt(face).width == 2;
    assert Embeds(face, face, [0, 1]);
    assert SinglesFrom(face, 0) == [];
    NothingToShow(face);
  }
}
