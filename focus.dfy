/**
 * Focus selection: which body the detail view shows. The state is the
 * module-level name `active` (the focused body's name, "sun" at start-up)
 * together with the `active` flag of every body. The left shift key
 * returns the focus to the sun; a mouse click, honoured only while the
 * sun is focused, focuses the first planet in list order whose hitbox
 * contains the pointer.
 *
 * Hitboxes are screen rectangles built by the graphics library; here the
 * test "this body's hitbox contains that point" is a parameter.
 */
module Focus {
  import opened Bodies

  datatype Option<T> = None | Some(value: T)

  /** The name of the sun, which is also the start-up focus. */
  const SunName: string := "sun"

  /** The position in `planets` of the first body whose hitbox contains `pt`, if any. */
  function FirstHit(planets: seq<Body>, contains: (Body, Point) -> bool, pt: Point): (r: Option<nat>)
    ensures r.Some? ==> r.value < |planets| && contains(planets[r.value], pt)
    ensures r.Some? ==> forall k :: 0 <= k < r.value ==> !contains(planets[k], pt)
    ensures r.None? <==> forall k :: 0 <= k < |planets| ==> !contains(planets[k], pt)
  {
    if planets == [] then None
    else if contains(planets[0], pt) then Some(0)
    else
      match FirstHit(planets[1..], contains, pt)
      case None => None
      case Some(k) => Some(k + 1)
  }

  /** Clears the focus flag of every body in `bodies`. */
  method DeactivateAll(bodies: seq<Body>)
    modifies bodies`active
    ensures forall o :: o in bodies ==> !o.active
    ensures forall o :: o in bodies ==> o.mass == old(o.mass) && o.orbit == old(o.orbit) && o.moons == old(o.moons)
  {
    for i := 0 to |bodies|
      invariant forall j :: 0 <= j < i ==> !bodies[j].active
    {
      bodies[i].active := false;
    }
  }

  /** The module-level focus state together with the planet list it ranges over. */
  class FocusState {
    /** The sun, which the left shift key focuses whether or not it is in `planets`. */
    const sun: Body
    var planets: seq<Body>
    /** The focused body's name. */
    var active: string

    /**
     * `b` is the focused body: its flag is set, the global name is its
     * name, and no other body of `planets` carries the flag.
     */
    ghost predicate Focused(b: Body)
      reads this, b, planets
    {
      && b.active
      && active == b.name
      && forall o :: o in planets && o != b ==> !o.active
    }

    /** The sun body carries the name "sun", so focusing it re-enables clicks. */
    ghost predicate Valid() {
      sun.name == SunName
    }

    /** Start-up: the global name says "sun" while no flag is set yet. */
    constructor (sun: Body, planets: seq<Body>)
      requires sun.name == SunName
      ensures this.sun == sun && this.planets == planets && active == SunName
      ensures Valid()
    {
      this.sun := sun;
      this.planets := planets;
      active := SunName;
    }

    /** Focus on `b`: set its flag and make its name the global focus. */
    method Activate(b: Body)
      modifies b`active, this`active
      ensures b.active && active == b.name
    {
      b.active := true;
      active := b.name;
    }

    /** The left shift key: clear every planet's flag, then focus the sun. */
    method KeyLShift()
      requires Valid()
      modifies planets`active, sun`active, this`active
      ensures Focused(sun) && active == SunName
      ensures forall o :: o in planets ==> o.active == (o == sun)
    {
      DeactivateAll(planets);
      Activate(sun);
    }

    /**
     * A mouse click at `pt`. While the sun is focused, the first planet in
     * list order whose hitbox contains `pt` becomes the only focused one;
     * otherwise, or when no hitbox contains `pt`, nothing changes.
     */
    method Click(pt: Point, contains: (Body, Point) -> bool)
      modifies planets`active, this`active
      ensures old(active) == SunName && FirstHit(planets, contains, pt).Some? ==>
        var chosen := planets[FirstHit(planets, contains, pt).value];
        Focused(chosen) && forall o :: o in planets ==> o.active == (o == chosen)
      ensures !(old(active) == SunName && FirstHit(planets, contains, pt).Some?) ==>
        active == old(active) && forall o :: o in planets ==> o.active == old(o.active)
    {
      if active == SunName {
        var k := 0;
        while k < |planets|
          invariant 0 <= k <= |planets|
          invariant forall i :: 0 <= i < k ==> !contains(planets[i], pt)
          invariant active == old(active)
          invariant forall o :: o in planets ==> o.active == old(o.active)
        {
          if contains(planets[k], pt) {
            var selected := planets[k];
            DeactivateAll(planets);
            Activate(selected);
            return;
          }
          k := k + 1;
        }
      }
    }
  }

  /** While `b` is focused and among the planets, it is the one planet with its flag set. */
  lemma FocusedIsExactlyOne(state: FocusState, b: Body)
    requires state.Focused(b) && b in state.planets
    ensures (set o | o in state.planets && o.active) == {b}
  {
    var flagged := set o | o in state.planets && o.active;
    assert b in flagged;
    forall o | o in flagged ensures o == b { }
  }
}
