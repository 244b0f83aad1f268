/**
 * The collision merge: for every ordered pair of distinct planets whose
 * hitboxes overlap, the heavier absorbs the lighter's mass and the lighter
 * is removed from the list.
 *
 * The list is changed while it is being iterated over, and the model
 * reproduces how that iteration behaves: each loop walks a running index
 * over the list as it is now, so after a removal the element that slides
 * into the vacated position is skipped, by the inner loop and possibly by
 * the outer one. Removal takes out the first element identical to the
 * absorbed body, as a list removal does for objects without their own
 * equality. Hitboxes do not move during the scan; whether two of them
 * overlap is a parameter.
 */
module Collision {
  import opened Bodies

  /** No element occurs twice. */
  predicate Distinct<T(==)>(s: seq<T>) {
    forall i, j :: 0 <= i < j < |s| ==> s[i] != s[j]
  }

  /** `a` is `b` with some elements left out, the rest in their original order. */
  predicate Subseq<T(==)>(a: seq<T>, b: seq<T>)
    decreases |b|
  {
    if a == [] then true
    else if b == [] then false
    else (a[0] == b[0] && Subseq(a[1..], b[1..])) || Subseq(a, b[1..])
  }

  /** The list without the first occurrence of `x`. */
  function RemoveFirst<T(==)>(s: seq<T>, x: T): (r: seq<T>)
    requires x in s
    ensures |r| == |s| - 1
  {
    if s[0] == x then
      assert s == [s[0]] + s[1..];
      s[1..]
    else
      assert s == [s[0]] + s[1..];
      [s[0]] + RemoveFirst(s[1..], x)
  }

  /** Removal takes out exactly one copy of `x` and keeps every other element. */
  lemma {:induction false} RemoveFirstMultiset<T>(s: seq<T>, x: T)
    requires x in s
    ensures multiset(RemoveFirst(s, x)) == multiset(s) - multiset{x}
  {
    assert s == [s[0]] + s[1..];
    if s[0] != x {
      RemoveFirstMultiset(s[1..], x);
    }
  }

  /** What removal does to membership: nothing new appears, and only `x` can vanish. */
  lemma RemoveFirstMembers<T>(s: seq<T>, x: T)
    requires x in s
    ensures forall y :: y in RemoveFirst(s, x) ==> y in s
    ensures forall y :: y in s && y != x ==> y in RemoveFirst(s, x)
  {
    var r := RemoveFirst(s, x);
    RemoveFirstMultiset(s, x);
    forall y | y in r ensures y in s {
      assert y in multiset(r);
    }
    forall y | y in s && y != x ensures y in r {
      assert multiset(r)[y] == multiset(s)[y] > 0;
    }
  }

  /** Removing the first occurrence of the element at `k` removes position `k`. */
  lemma {:induction false} RemoveFirstAt<T>(s: seq<T>, k: nat)
    requires k < |s|
    requires forall i :: 0 <= i < k ==> s[i] != s[k]
    ensures RemoveFirst(s, s[k]) == s[..k] + s[k + 1..]
  {
    if k > 0 {
      assert s[1..][k - 1] == s[k];
      RemoveFirstAt(s[1..], k - 1);
      assert s[..k] + s[k + 1..] == [s[0]] + (s[1..][..k - 1] + s[1..][k..]);
    }
  }

  /** Removing one position keeps the other elements distinct. */
  lemma {:induction false} RemoveAtDistinct<T>(s: seq<T>, k: nat)
    requires k < |s| && Distinct(s)
    ensures Distinct(s[..k] + s[k + 1..])
  {
    var r := s[..k] + s[k + 1..];
    forall i, j | 0 <= i < j < |r| ensures r[i] != r[j] {
      var i' := if i < k then i else i + 1;
      var j' := if j < k then j else j + 1;
      assert r[i] == s[i'] && r[j] == s[j'];
    }
  }

  lemma {:induction false} SubseqRefl<T>(s: seq<T>)
    ensures Subseq(s, s)
  {
    if s != [] {
      SubseqRefl(s[1..]);
    }
  }

  /** Removing an element leaves a subsequence. */
  lemma {:induction false} SubseqRemoveFirst<T>(s: seq<T>, x: T)
    requires x in s
    ensures Subseq(RemoveFirst(s, x), s)
  {
    if s[0] == x {
      SubseqRefl(s[1..]);
    } else {
      SubseqRemoveFirst(s[1..], x);
      var r := RemoveFirst(s, x);
      assert r[0] == s[0] && r[1..] == RemoveFirst(s[1..], x);
    }
  }

  /** A subsequence of a subsequence is a subsequence. */
  lemma {:induction false} SubseqTrans<T>(a: seq<T>, b: seq<T>, c: seq<T>)
    requires Subseq(a, b) && Subseq(b, c)
    ensures Subseq(a, c)
    decreases |c|
  {
    if a != [] {
      assert b != [] && c != [];
      if b[0] == c[0] && Subseq(b[1..], c[1..]) {
        if a[0] == b[0] && Subseq(a[1..], b[1..]) {
          SubseqTrans(a[1..], b[1..], c[1..]);
        } else {
          SubseqTrans(a, b[1..], c[1..]);
        }
      } else {
        SubseqTrans(a, b, c[1..]);
      }
    }
  }

  /** A subsequence is no longer than the sequence and holds only its elements. */
  lemma {:induction false} SubseqShrinks<T>(a: seq<T>, b: seq<T>)
    requires Subseq(a, b)
    ensures |a| <= |b|
    ensures multiset(a) <= multiset(b)
    decreases |b|
  {
    if a != [] {
      if a[0] == b[0] && Subseq(a[1..], b[1..]) {
        SubseqShrinks(a[1..], b[1..]);
        assert a == [a[0]] + a[1..] && b == [b[0]] + b[1..];
      } else {
        SubseqShrinks(a, b[1..]);
        assert b == [b[0]] + b[1..];
      }
    }
  }

  /** The total current mass of a list of bodies. */
  ghost function TotalMass(s: seq<Body>): real
    reads s
  {
    if s == [] then 0.0 else s[0].mass as real + TotalMass(s[1..])
  }

  /** The mass a table gives a body; a body missing from it counts as weightless. */
  function MassIn(m: map<Body, real>, b: Body): real {
    if b in m then m[b] else 0.0
  }

  /** The total mass a mass table gives a list of bodies. */
  ghost function Total(s: seq<Body>, m: map<Body, real>): real {
    if s == [] then 0.0 else MassIn(m, s[0]) + Total(s[1..], m)
  }

  /** Where the table holds every body's current mass, the two totals agree. */
  lemma {:induction false} TotalLinked(s: seq<Body>, m: map<Body, real>)
    requires forall b :: b in s ==> b in m && b.mass == m[b]
    ensures TotalMass(s) == Total(s, m)
  {
    if s != [] {
      TotalLinked(s[1..], m);
    }
  }

  /** Dropping one position lowers the total by that body's mass. */
  lemma {:induction false} TotalRemoveAt(s: seq<Body>, m: map<Body, real>, k: nat)
    requires k < |s|
    ensures Total(s[..k] + s[k + 1..], m) == Total(s, m) - MassIn(m, s[k])
  {
    var r := s[..k] + s[k + 1..];
    if k > 0 {
      TotalRemoveAt(s[1..], m, k - 1);
      assert r[0] == s[0] && r[1..] == s[1..][..k - 1] + s[1..][k..];
    } else {
      assert r == s[1..];
    }
  }

  /** Changing the mass of a body not in the list leaves its total alone. */
  lemma {:induction false} TotalUpdateOther(s: seq<Body>, m: map<Body, real>, x: Body, v: real)
    requires x !in s
    ensures Total(s, m[x := v]) == Total(s, m)
  {
    if s != [] {
      TotalUpdateOther(s[1..], m, x, v);
    }
  }

  /** Changing the mass of a body listed exactly once changes the total by the difference. */
  lemma {:induction false} TotalUpdate(s: seq<Body>, m: map<Body, real>, x: Body, v: real)
    requires Distinct(s) && x in s
    ensures Total(s, m[x := v]) == Total(s, m) - MassIn(m, x) + v
  {
    var tail := s[1..];
    assert Distinct(tail) by {
      forall i, j | 0 <= i < j < |tail| ensures tail[i] != tail[j] {
        assert tail[i] == s[i + 1] && tail[j] == s[j + 1];
      }
    }
    if s[0] == x {
      assert x !in tail by {
        forall i | 0 <= i < |tail| ensures tail[i] != x {
          assert tail[i] == s[i + 1];
        }
      }
      TotalUpdateOther(tail, m, x, v);
    } else {
      TotalUpdate(tail, m, x, v);
    }
  }

  /**
   * Every body of `planets` missing from `result` was taken by a different
   * body of `planets` whose hitbox overlaps its own, which then weighed
   * strictly more than it and now weighs at least that plus its mass.
   */
  ghost predicate AbsorbersRecorded(planets: seq<Body>, m: map<Body, real>, result: seq<Body>,
                                    absorbedBy: map<Body, Body>, absorberMass: map<Body, real>,
                                    overlaps: (Body, Body) -> bool)
  {
    forall b {:trigger b in absorbedBy} :: b in planets && b !in result ==>
      && b in absorbedBy
      && b in absorberMass
      && absorbedBy[b] in planets
      && absorbedBy[b] != b
      && overlaps(absorbedBy[b], b)
      && absorberMass[b] > MassIn(m, b)
      && MassIn(m, absorbedBy[b]) >= absorberMass[b] + MassIn(m, b)
  }

  /**
   * What holds between iterations of the merge pass, stated on a mass
   * table `m` (the current masses) and `m0` (the masses at the start).
   * `absorbedBy` records which body took each removed one, and
   * `absorberMass` what that body weighed just before it did.
   * `distinct` records whether the original list held every body once;
   * `total` is its total mass at the start.
   */
  ghost predicate MergeInvariant(planets: seq<Body>, m0: map<Body, real>, m: map<Body, real>,
                                 result: seq<Body>, absorbedBy: map<Body, Body>,
                                 absorberMass: map<Body, real>,
                                 overlaps: (Body, Body) -> bool, distinct: bool, total: real)
  {
    && Subseq(result, planets)
    && (forall b :: b in result ==> b in planets)
    && (forall b :: b in planets ==> b in m && b in m0 && 0.0 < m0[b] <= m[b])
    && AbsorbersRecorded(planets, m, result, absorbedBy, absorberMass, overlaps)
    && (distinct ==> Distinct(result) && Total(result, m) == total)
    && (distinct ==> forall b :: b in absorbedBy ==> b !in result)
    && (distinct ==> forall b :: b in planets && m[b] != m0[b] ==> b in absorbedBy.Values)
  }

  /**
   * No pair of distinct, overlapping bodies scanned so far, that is with the
   * first at a position before `i`, or at `i` with the second before `j`, had
   * the first strictly heavier at the start.
   */
  ghost predicate NothingDue(planets: seq<Body>, m0: map<Body, real>, overlaps: (Body, Body) -> bool,
                             i: int, j: int)
  {
    forall x, y :: 0 <= x < |planets| && 0 <= y < |planets| && (x < i || (x == i && y < j))
      && planets[x] != planets[y] && overlaps(planets[x], planets[y])
      ==> MassIn(m0, planets[x]) <= MassIn(m0, planets[y])
  }

  /** Scanning one more pair that is not due for a merge extends the scanned range. */
  lemma {:induction false} NothingDueExtend(planets: seq<Body>, m0: map<Body, real>,
                                            overlaps: (Body, Body) -> bool, i: int, j: int)
    requires 0 <= i < |planets| && 0 <= j < |planets|
    requires NothingDue(planets, m0, overlaps, i, j)
    requires planets[i] != planets[j] && overlaps(planets[i], planets[j]) ==>
      MassIn(m0, planets[i]) <= MassIn(m0, planets[j])
    ensures NothingDue(planets, m0, overlaps, i, j + 1)
  {
  }

  /** A fully scanned row moves the scan on to the next first body. */
  lemma {:induction false} NothingDueNextRow(planets: seq<Body>, m0: map<Body, real>,
                                             overlaps: (Body, Body) -> bool, i: int, j: int)
    requires j >= |planets| && NothingDue(planets, m0, overlaps, i, j)
    ensures NothingDue(planets, m0, overlaps, i + 1, 0)
  {
  }

  /** In a list without repetitions, removing the body at `k` removes it entirely. */
  lemma {:induction false} RemoveDistinct(result: seq<Body>, k: nat)
    requires k < |result| && Distinct(result)
    ensures RemoveFirst(result, result[k]) == result[..k] + result[k + 1..]
    ensures Distinct(result[..k] + result[k + 1..])
    ensures result[k] !in result[..k] + result[k + 1..]
  {
    RemoveFirstAt(result, k);
    RemoveAtDistinct(result, k);
    var r := result[..k] + result[k + 1..];
    forall i | 0 <= i < |r| ensures r[i] != result[k] {
      if i < k {
        assert r[i] == result[i];
      } else {
        assert r[i] == result[i + 1];
      }
    }
  }

  /** In a list without repetitions, a merge keeps the total mass. */
  lemma {:induction false} MergeSum(result: seq<Body>, m: map<Body, real>, planet: Body, k: nat)
    requires Distinct(result) && planet in result && k < |result| && result[k] != planet
    requires planet in m && result[k] in m
    ensures var q := result[k];
      Total(RemoveFirst(result, q), m[planet := m[planet] + m[q]]) == Total(result, m)
  {
    var q := result[k];
    var m' := m[planet := m[planet] + m[q]];
    assert RemoveFirst(result, q) == result[..k] + result[k + 1..] by {
      RemoveFirstAt(result, k);
    }
    assert Total(result, m') == Total(result, m) + m[q] by {
      TotalUpdate(result, m, planet, m[planet] + m[q]);
    }
    assert Total(result[..k] + result[k + 1..], m') == Total(result, m') - m[q] by {
      TotalRemoveAt(result, m', k);
    }
  }

  /**
   * One merge, `planet` absorbing the body at position `k`, keeps the
   * invariant, with the absorbed mass moved onto `planet`, the absorbed body
   * removed and recorded as absorbed by `planet`.
   */
  lemma {:induction false} MergeStep(planets: seq<Body>, m0: map<Body, real>, m: map<Body, real>,
                  result: seq<Body>, absorbedBy: map<Body, Body>, absorberMass: map<Body, real>,
                  overlaps: (Body, Body) -> bool, distinct: bool, total: real,
                  planet: Body, k: nat)
    requires MergeInvariant(planets, m0, m, result, absorbedBy, absorberMass, overlaps, distinct, total)
    requires planet in result && k < |result| && result[k] != planet
    requires overlaps(planet, result[k]) && m[planet] > m[result[k]]
    ensures var q := result[k];
      && planet in RemoveFirst(result, q)
      && MergeInvariant(planets, m0, m[planet := m[planet] + m[q]], RemoveFirst(result, q),
                        absorbedBy[q := planet], absorberMass[q := m[planet]], overlaps, distinct, total)
  {
    var q := result[k];
    var m' := m[planet := m[planet] + m[q]];
    var result' := RemoveFirst(result, q);
    var absorbedBy' := absorbedBy[q := planet];
    var absorberMass' := absorberMass[q := m[planet]];
    assert forall b :: b in planets ==> m'[b] >= m[b];
    assert Subseq(result', planets) by {
      SubseqRemoveFirst(result, q);
      SubseqTrans(result', result, planets);
    }
    RemoveFirstMembers(result, q);
    MergeStepAbsorbers(planets, m, result, absorbedBy, absorberMass, overlaps, planet, q);
    if distinct {
      MergeStepDistinct(planets, m0, m, result, absorbedBy, total, planet, k);
    }
  }

  /** One merge keeps every removed body's record, and records the newly removed one. */
  lemma {:induction false} MergeStepAbsorbers(planets: seq<Body>, m: map<Body, real>, result: seq<Body>,
                  absorbedBy: map<Body, Body>, absorberMass: map<Body, real>,
                  overlaps: (Body, Body) -> bool, planet: Body, q: Body)
    requires AbsorbersRecorded(planets, m, result, absorbedBy, absorberMass, overlaps)
    requires forall b :: b in result ==> b in planets
    requires forall b :: b in planets ==> b in m
    requires planet in result && q in result && q != planet
    requires overlaps(planet, q) && m[planet] > m[q] && m[q] > 0.0
    ensures AbsorbersRecorded(planets, m[planet := m[planet] + m[q]], RemoveFirst(result, q),
                              absorbedBy[q := planet], absorberMass[q := m[planet]], overlaps)
  {
    var m' := m[planet := m[planet] + m[q]];
    var result' := RemoveFirst(result, q);
    var absorbedBy' := absorbedBy[q := planet];
    var absorberMass' := absorberMass[q := m[planet]];
    RemoveFirstMembers(result, q);
    assert planet in m && q in m && planet in result';
    forall b | b in planets && b !in result'
      ensures b in absorbedBy' && b in absorberMass' && absorbedBy'[b] in planets
      ensures absorbedBy'[b] != b && overlaps(absorbedBy'[b], b)
      ensures absorberMass'[b] > MassIn(m', b)
      ensures MassIn(m', absorbedBy'[b]) >= absorberMass'[b] + MassIn(m', b)
    {
      if b != q {
        assert b in absorbedBy && b != planet;
        var a := absorbedBy[b];
        assert a in m && MassIn(m', a) >= MassIn(m, a);
        assert MassIn(m', b) == MassIn(m, b);
      } else {
        assert MassIn(m', planet) == m[planet] + m[q] && MassIn(m', q) == m[q];
      }
    }
  }

  /** For a list without repetitions, one merge keeps the bookkeeping of the invariant's `distinct` part. */
  lemma {:induction false} MergeStepDistinct(planets: seq<Body>, m0: map<Body, real>, m: map<Body, real>,
                  result: seq<Body>, absorbedBy: map<Body, Body>, total: real, planet: Body, k: nat)
    requires Distinct(result) && Total(result, m) == total
    requires forall b :: b in absorbedBy ==> b !in result
    requires forall b :: b in planets ==> b in m && b in m0
    requires forall b :: b in planets && m[b] != m0[b] ==> b in absorbedBy.Values
    requires forall b :: b in result ==> b in planets
    requires planet in result && k < |result| && result[k] != planet
    ensures var q := result[k];
      var m' := m[planet := m[planet] + m[q]];
      var result' := RemoveFirst(result, q);
      var absorbedBy' := absorbedBy[q := planet];
      && Distinct(result') && Total(result', m') == total
      && (forall b :: b in absorbedBy' ==> b !in result')
      && (forall b :: b in planets && m'[b] != m0[b] ==> b in absorbedBy'.Values)
  {
    var q := result[k];
    var m' := m[planet := m[planet] + m[q]];
    var result' := RemoveFirst(result, q);
    var absorbedBy' := absorbedBy[q := planet];
    RemoveDistinct(result, k);
    MergeSum(result, m, planet, k);
    RemoveFirstMembers(result, q);
    forall b | b in planets && m'[b] != m0[b] ensures b in absorbedBy'.Values {
      if b == planet {
        assert absorbedBy'[q] == planet;
      } else {
        var c :| c in absorbedBy && absorbedBy[c] == b;
        assert c != q && absorbedBy'[c] == b;
      }
    }
  }

  /** The mass table `m` holds the current mass of every body in `planets`. */
  ghost predicate Linked(planets: seq<Body>, m: map<Body, real>)
    reads planets
  {
    forall b :: b in planets ==> b in m && b.mass == m[b]
  }

  /** What the invariant gives once the pass is over, restated on the bodies themselves. */
  lemma {:induction false} MergeOutcome(planets: seq<Body>, m0: map<Body, real>, m: map<Body, real>,
                      result: seq<Body>, absorbedBy: map<Body, Body>, absorberMass: map<Body, real>,
                      overlaps: (Body, Body) -> bool, distinct: bool, total: real)
    requires MergeInvariant(planets, m0, m, result, absorbedBy, absorberMass, overlaps, distinct, total)
    requires Linked(planets, m)
    ensures |result| <= |planets|
    ensures forall b :: b in planets ==> b.mass >= m0[b]
    ensures forall b {:trigger b in absorbedBy} :: b in planets && b !in result ==>
      && b in absorbedBy
      && b in absorberMass
      && absorbedBy[b] in planets
      && absorbedBy[b] != b
      && overlaps(absorbedBy[b], b)
      && absorberMass[b] > b.mass
      && absorbedBy[b].mass >= absorberMass[b] + b.mass
    ensures distinct ==> Distinct(result) && TotalMass(result) == total
    ensures distinct ==> forall b :: b in planets && b.mass != m0[b] ==> b in absorbedBy.Values
  {
    SubseqShrinks(result, planets);
    TotalLinked(result, m);
    forall b | b in planets && b !in result
      ensures b in absorbedBy && b in absorberMass && absorbedBy[b] in planets
      ensures absorberMass[b] > b.mass && absorbedBy[b].mass >= absorberMass[b] + b.mass
    {
      if b in absorbedBy {
        var a := absorbedBy[b];
        assert a in planets && MassIn(m, a) >= absorberMass[b] + MassIn(m, b);
        assert a.mass == m[a] && b.mass == m[b];
      }
    }
  }

  /**
   * One merge: `planet` takes on the mass of `planet2`, found at position
   * `k` of the current list, and `planet2` is removed from the list. The
   * ghost results carry the proof state forward.
   */
  method Absorb(planet: Body, planet2: Body, k: nat, result: seq<Body>, overlaps: (Body, Body) -> bool,
                ghost planets: seq<Body>, ghost m0: map<Body, real>, ghost m: map<Body, real>,
                ghost absorbedBy: map<Body, Body>, ghost absorberMass: map<Body, real>,
                ghost distinct: bool, ghost total: real)
      returns (rest: seq<Body>, ghost m': map<Body, real>, ghost absorbedBy': map<Body, Body>,
               ghost absorberMass': map<Body, real>)
    requires k < |result| && result[k] == planet2 && planet in result && planet != planet2
    requires overlaps(planet, planet2) && planet.mass > planet2.mass
    requires MergeInvariant(planets, m0, m, result, absorbedBy, absorberMass, overlaps, distinct, total)
    requires Linked(planets, m)
    modifies planet`mass
    ensures planet.mass == old(planet.mass) + planet2.mass
    ensures rest == RemoveFirst(result, planet2) && planet in rest && |rest| == |result| - 1
    ensures MergeInvariant(planets, m0, m', rest, absorbedBy', absorberMass', overlaps, distinct, total)
    ensures Linked(planets, m')
  {
    MergeStep(planets, m0, m, result, absorbedBy, absorberMass, overlaps, distinct, total, planet, k);
    planet.mass := planet.mass + planet2.mass;
    m' := m[planet := m[planet] + m[planet2]];
    rest := RemoveFirst(result, planet2);
    absorbedBy' := absorbedBy[planet2 := planet];
    absorberMass' := absorberMass[planet2 := m[planet]];
  }

  /**
   * The inner scan for one `planet`: walks a running index over the list as
   * it now stands and makes `planet` absorb every other body it meets whose
   * hitbox overlaps its own and which is strictly lighter at that moment.
   * Only `planet`'s mass changes. When nothing is removed, the scan has
   * compared `planet`, at position `row` of the unchanged list, with every
   * body and found none due for a merge.
   */
  method AbsorbInto(planet: Body, result: seq<Body>, overlaps: (Body, Body) -> bool,
                    ghost planets: seq<Body>, ghost m0: map<Body, real>, ghost m: map<Body, real>,
                    ghost absorbedBy: map<Body, Body>, ghost absorberMass: map<Body, real>,
                    ghost distinct: bool, ghost total: real, ghost row: int)
      returns (rest: seq<Body>, ghost m': map<Body, real>, ghost absorbedBy': map<Body, Body>,
               ghost absorberMass': map<Body, real>)
    requires planet in result && |result| <= |planets|
    requires MergeInvariant(planets, m0, m, result, absorbedBy, absorberMass, overlaps, distinct, total)
    requires Linked(planets, m)
    requires |result| == |planets| ==>
      && result == planets && m == m0 && 0 <= row < |planets| && planet == planets[row]
      && NothingDue(planets, m0, overlaps, row, 0)
    modifies planet`mass
    ensures |rest| <= |result|
    ensures MergeInvariant(planets, m0, m', rest, absorbedBy', absorberMass', overlaps, distinct, total)
    ensures Linked(planets, m')
    ensures |rest| == |planets| ==> rest == planets && m' == m0 && NothingDue(planets, m0, overlaps, row + 1, 0)
  {
    rest, m', absorbedBy', absorberMass' := result, m, absorbedBy, absorberMass;
    var j := 0;
    while j < |rest|
      invariant planet in rest
      invariant |rest| <= |result|
      invariant MergeInvariant(planets, m0, m', rest, absorbedBy', absorberMass', overlaps, distinct, total)
      invariant Linked(planets, m')
      invariant |rest| == |planets| ==>
        rest == planets && m' == m0 && j <= |planets| && NothingDue(planets, m0, overlaps, row, j)
      decreases |rest| - j
    {
      var planet2 := rest[j];
      if |rest| == |planets| && (planet == planet2 || !overlaps(planet, planet2) || planet.mass <= planet2.mass) {
        assert planet.mass == MassIn(m0, planet) && planet2.mass == MassIn(m0, planet2);
        NothingDueExtend(planets, m0, overlaps, row, j);
      }
      j := j + 1;
      if planet == planet2 {
        continue;
      }
      if overlaps(planet, planet2) {
        if planet.mass > planet2.mass {
          rest, m', absorbedBy', absorberMass' := Absorb(planet, planet2, j - 1, rest, overlaps,
            planets, m0, m', absorbedBy', absorberMass', distinct, total);
        }
      }
    }
    if |rest| == |planets| {
      NothingDueNextRow(planets, m0, overlaps, row, j);
    }
  }

  /**
   * The loop of the merge pass: every body still in the list, in turn, runs
   * the inner scan `AbsorbInto`. The returned list and ghost tables satisfy
   * the pass invariant against the masses `m0` at the start; when nothing was
   * removed, every ordered pair of bodies was compared and none was due.
   */
  method MergePass(planets: seq<Body>, overlaps: (Body, Body) -> bool,
                   ghost m0: map<Body, real>, ghost distinct: bool, ghost total: real)
      returns (result: seq<Body>, ghost m: map<Body, real>, ghost absorbedBy: map<Body, Body>,
               ghost absorberMass: map<Body, real>)
    requires Linked(planets, m0)
    requires distinct == Distinct(planets) && total == Total(planets, m0)
    modifies planets`mass
    ensures MergeInvariant(planets, m0, m, result, absorbedBy, absorberMass, overlaps, distinct, total)
    ensures Linked(planets, m)
    ensures |result| == |planets| ==> result == planets && m == m0 && NothingDue(planets, m0, overlaps, |planets|, 0)
  {
    m := m0;
    result := planets;
    absorbedBy, absorberMass := map[], map[];
    SubseqRefl(planets);
    var i := 0;
    while i < |result|
      invariant 0 <= i
      invariant MergeInvariant(planets, m0, m, result, absorbedBy, absorberMass, overlaps, distinct, total)
      invariant Linked(planets, m)
      invariant |result| <= |planets|
      invariant |result| == |planets| ==>
        result == planets && m == m0 && i <= |planets| && NothingDue(planets, m0, overlaps, i, 0)
      decreases |result| - i
    {
      var planet := result[i];
      assert planet in planets;
      result, m, absorbedBy, absorberMass := AbsorbInto(planet, result, overlaps,
        planets, m0, m, absorbedBy, absorberMass, distinct, total, i);
      i := i + 1;
    }
  }

  /**
   * One merge pass over `planets`. Returns the surviving list and, as a
   * record for the proof, which body absorbed each removed one and what it
   * weighed just before. The survivors keep their order; masses never
   * shrink; every removed body was absorbed by a different body of the list
   * whose hitbox overlaps its own, which was strictly heavier at that moment
   * and then gained the removed body's mass; when nothing is removed, no
   * pair of distinct overlapping bodies had the first strictly heavier, and
   * nothing changed; and when the list holds no body twice, the total mass
   * is conserved and only absorbers gained mass. Nothing but masses changes.
   */
  method Collision(planets: seq<Body>, overlaps: (Body, Body) -> bool)
      returns (result: seq<Body>, ghost absorbedBy: map<Body, Body>, ghost absorberMass: map<Body, real>)
    modifies planets`mass
    ensures Subseq(result, planets) && |result| <= |planets|
    ensures forall b :: b in planets ==> b.mass >= old(b.mass)
    ensures forall b :: b in planets ==>
      b.active == old(b.active) && b.orbit == old(b.orbit) && b.moons == old(b.moons)
    ensures forall b {:trigger b in absorbedBy} :: b in planets && b !in result ==>
      && b in absorbedBy
      && b in absorberMass
      && absorbedBy[b] in planets
      && absorbedBy[b] != b
      && overlaps(absorbedBy[b], b)
      && absorberMass[b] > b.mass
      && absorbedBy[b].mass >= absorberMass[b] + b.mass
    ensures |result| == |planets| ==>
      && result == planets
      && (forall b :: b in planets ==> b.mass == old(b.mass))
      && (forall x, y ::
            (0 <= x < |planets| && 0 <= y < |planets| && planets[x] != planets[y] && overlaps(planets[x], planets[y]))
            ==> old(planets[x].mass) <= old(planets[y].mass))
    ensures Distinct(planets) ==> Distinct(result) && TotalMass(result) == old(TotalMass(planets))
    ensures Distinct(planets) ==> forall b :: b in planets && b.mass != old(b.mass) ==> b in absorbedBy.Values
  {
    ghost var m0: map<Body, real> := map b | b in planets :: b.mass as real;
    ghost var distinct := Distinct(planets);
    ghost var total := Total(planets, m0);
    TotalLinked(planets, m0);
    ghost var m: map<Body, real>;
    result, m, absorbedBy, absorberMass := MergePass(planets, overlaps, m0, distinct, total);
    MergeOutcome(planets, m0, m, result, absorbedBy, absorberMass, overlaps, distinct, total);
    forall b | b in planets && b !in result
      ensures b in absorbedBy && b in absorberMass && absorbedBy[b] in planets
      ensures absorberMass[b] > b.mass && absorbedBy[b].mass >= absorberMass[b] + b.mass
    {
    }
    if |result| == |planets| {
      forall x, y | 0 <= x < |planets| && 0 <= y < |planets| && planets[x] != planets[y]
          && overlaps(planets[x], planets[y])
        ensures old(planets[x].mass) <= old(planets[y].mass)
      {
        assert MassIn(m0, planets[x]) <= MassIn(m0, planets[y]);
      }
    }
  }

  /**
   * Two distinct overlapping bodies, the first strictly heavier: the pass
   * leaves only the first, carrying both masses.
   */
  method MergeTwo(p: Body, q: Body, overlaps: (Body, Body) -> bool) returns (survivors: seq<Body>)
    requires p != q && overlaps(p, q) && p.mass > q.mass
    modifies p`mass, q`mass
    ensures survivors == [p] && p.mass == old(p.mass) + old(q.mass)
  {
    var planets := [p, q];
    ghost var total := TotalMass(planets);
    assert total == p.mass + q.mass by {
      assert planets[1..] == [q] && planets[1..][1..] == [];
      assert TotalMass([q]) == q.mass + TotalMass([]);
    }
    assert Distinct(planets);
    ghost var absorbedBy: map<Body, Body>;
    ghost var absorberMass: map<Body, real>;
    survivors, absorbedBy, absorberMass := Collision(planets, overlaps);
    assert planets[0] == p && planets[1] == q;
    assert |survivors| != |planets|;
    SubseqShrinks(survivors, planets);
    forall b | b in survivors ensures b == p || b == q {
      assert b in multiset(survivors);
    }
    assert |survivors| == 1;
    assert TotalMass(survivors) == survivors[0].mass by {
      assert survivors[1..] == [];
    }
    assert p in survivors || p in absorbedBy;
    assert survivors[0] == p;
  }
}
