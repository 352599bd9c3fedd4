/** Result types and sequence relations shared by the models. */
module Wrappers {
  datatype Option<+T> = None | Some(value: T)

  datatype Result<+T, +E> = Ok(value: T) | Err(error: E)
}

module Subsequences {
  /** `positions` embeds `small` into `big` in order, no position used twice. */
  predicate Embeds<T(==)>(positions: seq<nat>, small: seq<T>, big: seq<T>) {
    && |positions| == |small|
    && (forall i :: 0 <= i < |positions| ==> positions[i] < |big| && big[positions[i]] == small[i])
    && (forall i, j :: 0 <= i < j < |positions| ==> positions[i] < positions[j])
  }

  ghost predicate Subsequence<T>(small: seq<T>, big: seq<T>) {
    exists positions: seq<nat> :: Embeds(positions, small, big)
  }

  lemma SubsequenceSkip<T>(small: seq<T>, big: seq<T>, x: T)
    requires Subsequence(small, big)
    ensures Subsequence(small, big + [x])
  {
    var p: seq<nat> :| Embeds(p, small, big);
    assert Embeds(p, small, big + [x]);
  }

  lemma SubsequenceTake<T>(small: seq<T>, big: seq<T>, x: T)
    requires Subsequence(small, big)
    ensures Subsequence(small + [x], big + [x])
  {
    var p: seq<nat> :| Embeds(p, small, big);
    var r: seq<nat> := p + [|big|];
    assert Embeds(r, small + [x], big + [x]);
  }

  lemma SubsequencePrefix<T>(small: seq<T>, rest: seq<T>, big: seq<T>)
    requires Subsequence(small + rest, big)
    ensures Subsequence(small, big)
  {
    var p: seq<nat> :| Embeds(p, small + rest, big);
    assert forall i :: 0 <= i < |small| ==> small[i] == (small + rest)[i];
    assert Embeds(p[..|small|], small, big);
  }

  lemma SubsequenceWiden<T>(small: seq<T>, big: seq<T>, rest: seq<T>)
    requires Subsequence(small, big)
    ensures Subsequence(small, big + rest)
  {
    var p: seq<nat> :| Embeds(p, small, big);
    assert Embeds(p, small, big + rest);
  }

  lemma SubsequenceTransitive<T>(a: seq<T>, b: seq<T>, c: seq<T>)
    requires Subsequence(a, b) && Subsequence(b, c)
    ensures Subsequence(a, c)
  {
    var p: seq<nat> :| Embeds(p, a, b);
    var q: seq<nat> :| Embeds(q, b, c);
    var r: seq<nat> := seq(|p|, i requires 0 <= i < |p| => q[p[i]]);
    assert Embeds(r, a, c);
  }

  /** `s` without the first occurrence of `x`. */
  function Without<T(==)>(s: seq<T>, x: T): seq<T> {
    if s == [] then [] else if s[0] == x then s[1..] else [s[0]] + Without(s[1..], x)
  }

  predicate Distinct<T(==)>(s: seq<T>) {
    forall i, j :: 0 <= i < j < |s| ==> s[i] != s[j]
  }

  lemma {:induction false} WithoutRemoves<T>(s: seq<T>, x: T)
    requires Distinct(s)
    ensures forall y :: y in Without(s, x) <==> y in s && y != x
    ensures Distinct(Without(s, x))
  {
    if s != [] {
      var rest := Without(s[1..], x);
      WithoutRemoves(s[1..], x);
      forall l | 0 <= l < |rest| ensures rest[l] != s[0] {
        assert rest[l] in rest;
      }
    }
  }
}
