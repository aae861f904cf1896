/** The in-memory resolver's zone table: registration and the search for the
    deepest zone that encloses a name. */
module FakeResolver {
  import opened Ordering
  import opened Bytes
  import opened Names

  datatype Zone = Zone(name: Str, transferAllowed: bool, recursive: bool)

  ghost predicate ProperName(n: Str) {
    WellFormed(LabelsOf(Canon(n)))
  }

  /** The zone encloses the name, as the string test decides it. */
  predicate Encloses(z: Zone, name: Str) {
    InZoneTest(name, Canon(z.name))
  }

  /** Two enclosing zones of one name are nested. */
  lemma EnclosingZonesNest(n: seq<Str>, a: seq<Str>, b: seq<Str>)
    requires EndsWith(n, a) && EndsWith(n, b) && |a| <= |b|
    ensures EndsWith(b, a)
    ensures |a| == |b| ==> a == b
  {
    assert b[|b| - |a|..] == n[|n| - |b|..][|b| - |a|..] == n[|n| - |a|..];
  }

  lemma {:induction false} JoinGrows(a: seq<Str>, b: seq<Str>)
    requires WellFormed(b) && EndsWith(b, a) && |a| < |b|
    ensures |Dotted(b)| >= |Dotted(a)| + (if a == [] then 1 else 2)
  {
    var m := b[..|b| - |a|];
    assert b == m + a;
    NonEmptyJoin(m);
    if a != [] {
      JoinAppend(m, a);
    } else {
      assert m == b;
    }
  }

  lemma NonEmptyJoin(m: seq<Str>)
    requires m != [] && m[0] != []
    ensures |Join(m)| >= 1
  {
  }

  /** The labels of the zone are the last labels of the name; the root zone counts
      for the root alone. */
  ghost predicate LiesIn(name: Str, z: Zone)
    requires IsFqdn(name) && IsFqdn(Canon(z.name))
  {
    var a := LabelsOf(Canon(z.name));
    EndsWith(LabelsOf(name), a) && (a != [] || LabelsOf(name) == [])
  }

  /** For proper names the string test is this test on labels. */
  lemma EnclosesOnLabels(name: Str, z: Zone)
    requires IsFqdn(name) && ProperName(name) && Canon(name) == name && ProperName(z.name)
    ensures Encloses(z, name) <==> LiesIn(name, z)
  {
    LabelsOfZone(z.name);
    DottedLabelsOf(name);
    InZoneTestIsLabelSuffix(LabelsOf(name), LabelsOf(Canon(z.name)));
  }

  /** Of two enclosing zones the deeper one has the longer registered name,
      even if only the other is spelled with its final dot. */
  lemma DeeperZoneHasLongerName(name: Str, x: Zone, y: Zone)
    requires IsFqdn(name) && ProperName(name) && Canon(name) == name && ProperName(x.name) && ProperName(y.name)
    requires Encloses(x, name) && Encloses(y, name)
    ensures |LabelsOf(Canon(x.name))| < |LabelsOf(Canon(y.name))| ==> |x.name| < |y.name|
    ensures |LabelsOf(Canon(x.name))| == |LabelsOf(Canon(y.name))| ==> Canon(x.name) == Canon(y.name)
  {
    var n, a, b := LabelsOf(name), LabelsOf(Canon(x.name)), LabelsOf(Canon(y.name));
    LabelsOfZone(x.name);
    LabelsOfZone(y.name);
    DottedLabelsOf(name);
    InZoneTestIsLabelSuffix(n, a);
    InZoneTestIsLabelSuffix(n, b);
    if |a| <= |b| {
      EnclosingZonesNest(n, a, b);
      if |a| < |b| {
        JoinGrows(a, b);
        assert a != [];
      }
    }
  }

  lemma LabelsOfZone(s: Str)
    ensures IsFqdn(Canon(s)) && Dotted(LabelsOf(Canon(s))) == Canon(s)
    ensures |s| <= |Canon(s)| <= |s| + 1
  {
    CanonIsStable(s);
    DottedLabelsOf(Canon(s));
  }

  type ZoneMap = map<Str, Zone>

  /** Every zone is filed under its canonical name. */
  ghost predicate Filed(zones: ZoneMap) {
    forall k :: k in zones ==> k == Canon(zones[k].name)
  }

  ghost predicate ProperZones(zones: ZoneMap) {
    forall k :: k in zones ==> ProperName(zones[k].name)
  }

  function Depth(z: Zone): nat {
    CanonIsStable(z.name);
    |LabelsOf(Canon(z.name))|
  }

  ghost predicate IsRegistered(zones: ZoneMap, z: Zone) {
    Canon(z.name) in zones && zones[Canon(z.name)] == z
  }

  ghost predicate IsCandidate(zones: ZoneMap, z: Zone, name: Str)
    requires IsFqdn(name)
  {
    CanonIsStable(z.name);
    IsRegistered(zones, z) && LiesIn(name, z)
  }

  /** `z` is a registered zone the name lies in, and every other one is shallower. */
  ghost predicate IsDeepest(zones: ZoneMap, z: Zone, name: Str)
    requires IsFqdn(name)
  {
    IsCandidate(zones, z, name) && forall y :: IsCandidate(zones, y, name) && y != z ==> Depth(y) < Depth(z)
  }

  ghost predicate IsLongest(zones: ZoneMap, z: Zone, name: Str) {
    && IsRegistered(zones, z) && Encloses(z, name)
    && forall k :: k in zones && Encloses(zones[k], name) ==> |zones[k].name| <= |z.name|
  }

  lemma RegisteredIsProper(zones: ZoneMap, z: Zone)
    requires ProperZones(zones) && IsRegistered(zones, z)
    ensures ProperName(z.name)
  {
  }

  lemma LongestIsDeepest(zones: ZoneMap, z: Zone, name: Str)
    requires Filed(zones) && ProperZones(zones) && ProperName(name) && IsFqdn(name) && Canon(name) == name
    requires IsLongest(zones, z, name)
    ensures IsDeepest(zones, z, name)
  {
    RegisteredIsProper(zones, z);
    EnclosesOnLabels(name, z);
    forall y | IsCandidate(zones, y, name) && y != z ensures Depth(y) < Depth(z) {
      RegisteredIsProper(zones, y);
      EnclosesOnLabels(name, y);
      DeeperZoneHasLongerName(name, z, y);
    }
  }

  class Resolver {
    var zones: map<Str, Zone>

    constructor ()
      ensures Valid() && zones == map[]
    {
      zones := map[];
    }

    ghost predicate Valid()
      reads this
    {
      Filed(zones)
    }

    /** `AddZone`: a zone of the same canonical name is replaced. */
    method AddZone(z: Zone)
      requires Valid()
      modifies this`zones
      ensures Valid()
      ensures zones == old(zones)[Canon(z.name) := z]
    {
      zones := zones[Canon(z.name) := z];
    }

    /** The loop of `findZone`: the enclosing zone of the longest name. */
    method FindLongest(name: Str) returns (best: Option<Zone>)
      requires Valid()
      ensures best.None? <==> forall k :: k in zones ==> !Encloses(zones[k], name)
      ensures best.Some? ==> IsLongest(zones, best.value, name)
    {
      best := None;
      var bestLen := -1;
      var todo := zones.Keys;
      while todo != {}
        invariant todo <= zones.Keys
        invariant best.None? ==> bestLen == -1
        invariant best.None? ==> forall k :: k in zones && k !in todo ==> !Encloses(zones[k], name)
        invariant best.Some? ==> bestLen == |best.value.name| && IsRegistered(zones, best.value)
        invariant best.Some? ==> Encloses(best.value, name)
        invariant forall k :: k in zones && k !in todo && Encloses(zones[k], name) ==> |zones[k].name| <= bestLen
        decreases todo
      {
        var k :| k in todo;
        todo := todo - {k};
        var z := zones[k];
        if Encloses(z, name) {
          if |z.name| > bestLen {
            best := Some(z);
            bestLen := |z.name|;
          }
        }
      }
    }

    /** `findZone`, for every order of the zone map: the deepest enclosing zone,
        which is unique, or nothing if no zone encloses the name. */
    method FindZone(name: Str) returns (best: Option<Zone>)
      requires Valid() && IsFqdn(name) && Canon(name) == name
      ensures best.Some? ==> IsRegistered(zones, best.value)
      ensures best.None? <==> forall k :: k in zones ==> !InZoneTest(name, Canon(zones[k].name))
      ensures ProperZones(zones) && ProperName(name) && best.None? ==> forall z :: !IsCandidate(zones, z, name)
      ensures ProperZones(zones) && ProperName(name) && best.Some?
              ==> IsDeepest(zones, best.value, name) && forall z :: IsDeepest(zones, z, name) ==> z == best.value
    {
      best := FindLongest(name);
      if ProperZones(zones) && ProperName(name) {
        if best.Some? {
          LongestIsDeepest(zones, best.value, name);
        } else {
          forall z ensures !IsCandidate(zones, z, name) {
            if IsRegistered(zones, z) {
              EnclosesOnLabels(name, z);
            }
          }
        }
      }
    }
  }
}
