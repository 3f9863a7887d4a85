/**
 * HittableList: the scene, an ordered list of objects, and its
 * closest-hit search. The objects modelled are spheres, the only
 * Hittable the core defines.
 */
module Scene {
  import opened MathUtils
  import opened Vectors
  import opened Ray
  import opened Materials
  import opened Hittable
  import opened Sphere
  import W = Wrappers

  /** Every sphere has a non-zero radius, so that its hit normal is defined. */
  predicate ProperSpheres(objects: seq<Sphere3>) {
    forall o :: o in objects ==> o.radius != 0.0
  }

  /**
   * What the loop of HittableList::hit leaves in `rec` after visiting
   * `objects` in order: each object is tested against [t_min, closest],
   * where closest is the t of the last accepted hit (t_max before any), and
   * an accepted hit replaces the record.
   */
  function Closest(objects: seq<Sphere3>, r: Ray3, tMin: real, tMax: real, sqrt: real -> real): (c: W.Option<Record>)
    requires IsSqrt(sqrt) && r.direction != Zero && ProperSpheres(objects)
    ensures objects == [] ==> c.None?
    ensures c.Some? ==> c.value.hit && InRange(c.value.t, tMin, tMax)
    decreases |objects|
  {
    if objects == [] then W.None
    else
      var prev := Closest(objects[..|objects| - 1], r, tMin, tMax, sqrt);
      var closest := if prev.Some? then prev.value.t else tMax;
      var last := objects[|objects| - 1];
      match FindRoot(last, r, tMin, closest, sqrt)
      case Root(t) => W.Some(HitRecordAt(last, r, t))
      case _ => prev
  }

  /** One step of the search: the last object is tested against [t_min, closest so far]. */
  lemma ClosestStep(objects: seq<Sphere3>, r: Ray3, tMin: real, tMax: real, sqrt: real -> real)
    requires IsSqrt(sqrt) && r.direction != Zero && ProperSpheres(objects) && objects != []
    ensures var init := objects[..|objects| - 1];
      var prev := Closest(init, r, tMin, tMax, sqrt);
      var last := objects[|objects| - 1];
      var res := FindRoot(last, r, tMin, if prev.Some? then prev.value.t else tMax, sqrt);
      Closest(objects, r, tMin, tMax, sqrt) == if res.Root? then W.Some(HitRecordAt(last, r, res.t)) else prev
  {
  }

  /**
   * The loop's running minimum (HittableList::hit's `closest`): one more
   * object never makes it grow, and a record accepted at that object lies
   * in [t_min, closest so far].
   */
  lemma ClosestNeverIncreases(objects: seq<Sphere3>, r: Ray3, tMin: real, tMax: real, sqrt: real -> real)
    requires IsSqrt(sqrt) && r.direction != Zero && ProperSpheres(objects) && objects != []
    ensures var prev := Closest(objects[..|objects| - 1], r, tMin, tMax, sqrt);
      var c := Closest(objects, r, tMin, tMax, sqrt);
      (prev.Some? ==> c.Some? && c.value.t <= prev.value.t)
      && (c.Some? ==> InRange(c.value.t, tMin, if prev.Some? then prev.value.t else tMax))
  {
    ClosestStep(objects, r, tMin, tMax, sqrt);
  }

  /**
   * A record the search accepts is the hit of one of the objects, at a
   * surface point in [t_min, t_max].
   */
  lemma {:induction false} ClosestIsSomeObjectsHit(objects: seq<Sphere3>, r: Ray3, tMin: real, tMax: real, sqrt: real -> real)
    requires IsSqrt(sqrt) && r.direction != Zero && ProperSpheres(objects)
    ensures var c := Closest(objects, r, tMin, tMax, sqrt);
      c.Some? ==>
        InRange(c.value.t, tMin, tMax)
        && exists i :: 0 <= i < |objects| && OnSphere(objects[i], r, c.value.t)
                       && c.value == HitRecordAt(objects[i], r, c.value.t)
    decreases |objects|
  {
    if objects != [] {
      var n := |objects| - 1;
      var init := objects[..n];
      ClosestIsSomeObjectsHit(init, r, tMin, tMax, sqrt);
      ClosestStep(objects, r, tMin, tMax, sqrt);
      var prev := Closest(init, r, tMin, tMax, sqrt);
      var res := FindRoot(objects[n], r, tMin, if prev.Some? then prev.value.t else tMax, sqrt);
      if res.Root? {
        assert OnSphere(objects[n], r, res.t);
      } else if prev.Some? {
        var i :| 0 <= i < n && OnSphere(init[i], r, prev.value.t) && prev.value == HitRecordAt(init[i], r, prev.value.t);
        assert init[i] == objects[i];
      }
    }
  }

  /**
   * The closest-hit theorem: every surface point of every object in
   * [t_min, t_max] makes the search succeed, with a t no greater than that
   * point's.
   */
  lemma {:induction false} ClosestIsNearest(objects: seq<Sphere3>, r: Ray3, tMin: real, tMax: real, sqrt: real -> real)
    requires IsSqrt(sqrt) && r.direction != Zero && ProperSpheres(objects)
    ensures var c := Closest(objects, r, tMin, tMax, sqrt);
      forall i, t :: 0 <= i < |objects| && InRange(t, tMin, tMax) && OnSphere(objects[i], r, t) ==>
        c.Some? && c.value.t <= t
    decreases |objects|
  {
    if objects != [] {
      var n := |objects| - 1;
      var init := objects[..n];
      ClosestIsNearest(init, r, tMin, tMax, sqrt);
      ClosestIsSomeObjectsHit(init, r, tMin, tMax, sqrt);
      ClosestStep(objects, r, tMin, tMax, sqrt);
      var prev := Closest(init, r, tMin, tMax, sqrt);
      var closest := if prev.Some? then prev.value.t else tMax;
      var res := FindRoot(objects[n], r, tMin, closest, sqrt);
      var c := Closest(objects, r, tMin, tMax, sqrt);
      forall i, t | 0 <= i < |objects| && InRange(t, tMin, tMax) && OnSphere(objects[i], r, t)
        ensures c.Some? && c.value.t <= t
      {
        if i < n {
          assert init[i] == objects[i];
        } else if InRange(t, tMin, closest) {
          FindRootIsNearest(objects[n], r, tMin, closest, sqrt, t);
        }
      }
    }
  }

  /**
   * add as written: `objects.emplace_back(objects)` appends an element made
   * from the list itself rather than the argument. `fromList` stands for
   * that conversion; whatever it yields, the argument plays no part.
   */
  function AddAsWritten(objects: seq<Sphere3>, obj: Sphere3, fromList: seq<Sphere3> -> Sphere3): (r: seq<Sphere3>)
    ensures |r| == |objects| + 1 && r[..|objects|] == objects
  {
    objects + [fromList(objects)]
  }

  /**
   * Two different spheres added to an empty list as written cannot both end
   * up in it: at least one add loses its argument.
   */
  lemma AddAsWrittenLosesArgument(fromList: seq<Sphere3> -> Sphere3)
    ensures AddAsWritten([], DefaultSphere, fromList) != [DefaultSphere]
         || AddAsWritten([], DefaultSphere.(radius := 0.5), fromList) != [DefaultSphere.(radius := 0.5)]
  {
  }

  /**
   * With add corrected, an added sphere takes part in the search: any of
   * its surface points in [t_min, t_max] makes the scene report a hit no
   * farther away.
   */
  lemma AddedObjectIsSeen(objects: seq<Sphere3>, obj: Sphere3, r: Ray3, tMin: real, tMax: real, sqrt: real -> real, t: real)
    requires IsSqrt(sqrt) && r.direction != Zero && ProperSpheres(objects) && obj.radius != 0.0
    requires InRange(t, tMin, tMax) && OnSphere(obj, r, t)
    ensures ProperSpheres(objects + [obj])
    ensures Closest(objects + [obj], r, tMin, tMax, sqrt).Some?
    ensures Closest(objects + [obj], r, tMin, tMax, sqrt).value.t <= t
  {
    ClosestIsNearest(objects + [obj], r, tMin, tMax, sqrt);
    assert (objects + [obj])[|objects|] == obj;
  }

  class HittableList {
    var objects: seq<Sphere3>

    /** HittableList(): an empty scene. */
    constructor ()
      ensures objects == []
    {
      objects := [];
    }

    /** HittableList(object): a scene holding the one object (with add corrected). */
    constructor FromObject(obj: Sphere3)
      ensures objects == [obj]
    {
      objects := [obj];
    }

    /** clear(): removes every object. */
    method Clear()
      modifies this
      ensures objects == []
    {
      objects := [];
    }

    /** add(object): appends the object (the evidently intended behaviour). */
    method Add(obj: Sphere3)
      modifies this
      ensures objects == old(objects) + [obj]
    {
      objects := objects + [obj];
    }

    /**
     * HittableList::hit: tests every object in order against a shrinking
     * interval [t_min, closest] with one shared temporary record, and copies
     * each accepted hit into `rec`.
     */
    method Hit(r: Ray3, tMin: real, tMax: real, rec: HitRecord, sqrt: real -> real) returns (hitAnything: bool)
      requires IsSqrt(sqrt) && r.direction != Zero && ProperSpheres(objects)
      modifies rec
      ensures hitAnything <==> Closest(objects, r, tMin, tMax, sqrt).Some?
      ensures hitAnything ==> rec.Value() == Closest(objects, r, tMin, tMax, sqrt).value
      ensures !hitAnything ==> rec.Value() == old(rec.Value())
      ensures objects == [] ==> !hitAnything
      ensures hitAnything ==> InRange(rec.t, tMin, tMax)
      ensures forall i, t :: 0 <= i < |objects| && InRange(t, tMin, tMax) && OnSphere(objects[i], r, t) ==>
                hitAnything && rec.t <= t
    {
      var tempRec := new HitRecord();
      hitAnything := false;
      var closest := tMax;
      var i := 0;
      while i < |objects|
        invariant 0 <= i <= |objects|
        invariant hitAnything <==> Closest(objects[..i], r, tMin, tMax, sqrt).Some?
        invariant hitAnything ==> rec.Value() == Closest(objects[..i], r, tMin, tMax, sqrt).value
        invariant hitAnything ==> closest == rec.t
        invariant !hitAnything ==> rec.Value() == old(rec.Value()) && closest == tMax
        invariant closest <= tMax
      {
        assert objects[..i + 1][..i] == objects[..i];
        var obj := objects[i];
        var b := obj.Hit(r, tMin, closest, tempRec, sqrt);
        if b {
          hitAnything := true;
          closest := tempRec.t;
          rec.Assign(tempRec.Value());
        }
        i := i + 1;
      }
      assert objects[..i] == objects;
      ClosestIsSomeObjectsHit(objects, r, tMin, tMax, sqrt);
      ClosestIsNearest(objects, r, tMin, tMax, sqrt);
    }
  }
}
