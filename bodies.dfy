/**
 * The simulated bodies. One class serves the sun, the planets and the
 * moons, as the source's `Moon` subclass of `Planet` adds only a parent
 * reference and its own physics. The fields kept are those the discrete
 * rules read or write: the name, the parent, the mass, the focus flag,
 * the drawn trajectory and the list of moon names.
 *
 * Positions, velocities and forces are floating-point numerics and are
 * not part of this model: a trajectory entry is an opaque screen point.
 */
module Bodies {

  /** A point of a drawn trajectory, in screen coordinates. */
  datatype Point = Point(x: real, y: real)

  /** Masses are positive (kilograms). */
  type Mass = m: real | m > 0.0 witness 1.0

  /** The single entry listed for a planet that has no moons. */
  const NoMoons: string := "none"

  class Body {
    /** The display name; not necessarily unique. */
    const name: string
    /** The planet a moon orbits; null for the sun and the planets. */
    const parent: Body?
    var mass: Mass
    /** Whether the detail view is focused on this body. */
    var active: bool
    /** Every screen position drawn so far, oldest first. */
    var orbit: seq<Point>
    /** The names of this planet's moons, as last computed by FindMoons. */
    var moons: seq<string>

    /** A new body: unfocused, with an empty trajectory and no moon list yet. */
    constructor (name: string, mass: Mass, parent: Body?)
      ensures this.name == name && this.mass == mass && this.parent == parent
      ensures !active && orbit == [] && moons == []
    {
      this.name := name;
      this.mass := mass;
      this.parent := parent;
      active := false;
      orbit := [];
      moons := [];
    }

    /**
     * The trajectory bookkeeping of one integration step, for planets and
     * moons alike: the newly projected position is appended and nothing
     * already recorded is removed or altered.
     */
    method UpdatePos(projected: Point)
      modifies this`orbit
      ensures orbit == old(orbit) + [projected]
      ensures |orbit| == |old(orbit)| + 1 && orbit[..|old(orbit)|] == old(orbit)
    {
      orbit := orbit + [projected];
    }

    /**
     * Scans the moon list in order, collecting the names of the moons whose
     * parent is this very object, and stores the result (the sentinel list
     * when nothing matched) in `moons`.
     */
    method FindMoons(candidates: seq<Body>) returns (names: seq<string>)
      modifies this`moons
      ensures names == MoonNames(this, candidates) && moons == names
      ensures names != []
    {
      moons := [];
      for k := 0 to |candidates|
        invariant moons == MoonsOf(this, candidates[..k])
      {
        var moon := candidates[k];
        MoonsOfConcat(this, candidates[..k], [moon]);
        assert candidates[..k + 1] == candidates[..k] + [moon];
        if moon.parent == this {
          moons := moons + [moon.name];
        }
      }
      assert candidates[..|candidates|] == candidates;
      if |moons| == 0 {
        moons := moons + [NoMoons];
      }
      names := moons;
    }
  }

  /** The names of the moons in `candidates` whose parent is `p`, in list order. */
  function MoonsOf(p: Body, candidates: seq<Body>): seq<string> {
    if candidates == [] then []
    else
      var head := if candidates[0].parent == p then [candidates[0].name] else [];
      head + MoonsOf(p, candidates[1..])
  }

  /** The moon list shown for `p`: its moons' names, or the sentinel when it has none. */
  function MoonNames(p: Body, candidates: seq<Body>): (r: seq<string>)
    ensures r != []
    ensures (forall k :: 0 <= k < |candidates| ==> candidates[k].parent != p) ==> r == [NoMoons]
    ensures (exists k :: 0 <= k < |candidates| && candidates[k].parent == p) ==> r == MoonsOf(p, candidates)
  {
    MoonsOfEmpty(p, candidates);
    var found := MoonsOf(p, candidates);
    if found == [] then [NoMoons] else found
  }

  /** Filtering distributes over concatenation: the result keeps list order. */
  lemma {:induction false} MoonsOfConcat(p: Body, a: seq<Body>, b: seq<Body>)
    ensures MoonsOf(p, a + b) == MoonsOf(p, a) + MoonsOf(p, b)
  {
    if a != [] {
      MoonsOfConcat(p, a[1..], b);
      assert (a + b)[0] == a[0] && (a + b)[1..] == a[1..] + b;
    } else {
      assert a + b == b;
    }
  }

  /** A name is listed exactly when some moon with parent `p` carries it. */
  lemma {:induction false} MoonsOfMembership(p: Body, candidates: seq<Body>, x: string)
    ensures x in MoonsOf(p, candidates) <==>
      exists k :: 0 <= k < |candidates| && candidates[k].parent == p && candidates[k].name == x
  {
    if candidates != [] {
      MoonsOfMembership(p, candidates[1..], x);
      if x in MoonsOf(p, candidates[1..]) {
        var k :| 0 <= k < |candidates[1..]| && candidates[1..][k].parent == p && candidates[1..][k].name == x;
        assert candidates[k + 1] == candidates[1..][k];
      }
      if exists k :: 0 <= k < |candidates| && candidates[k].parent == p && candidates[k].name == x {
        var k :| 0 <= k < |candidates| && candidates[k].parent == p && candidates[k].name == x;
        if k > 0 {
          assert candidates[1..][k - 1] == candidates[k];
        }
      }
    }
  }

  /** Nothing is listed exactly when no moon has parent `p`; never more names than moons. */
  lemma {:induction false} MoonsOfEmpty(p: Body, candidates: seq<Body>)
    ensures |MoonsOf(p, candidates)| <= |candidates|
    ensures MoonsOf(p, candidates) == [] <==> forall k :: 0 <= k < |candidates| ==> candidates[k].parent != p
  {
    if candidates != [] {
      MoonsOfEmpty(p, candidates[1..]);
      if candidates[0].parent != p {
        forall k | 0 < k < |candidates| ensures candidates[k] == candidates[1..][k - 1] { }
      }
    }
  }
}
