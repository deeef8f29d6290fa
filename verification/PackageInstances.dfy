/** The per-package instance map of the camera shim's SensorManager
    (libshims/camera/SensorManager.cpp:72-119). */
module PackageInstances {
  import opened SensorManagerModel

  /** What defaultServiceManager()->getService("permission") and getPackagesForUid answer. */
  datatype Lookup = NoService | Packages(names: seq<string>)

  type Instances = map<string, SensorManager>

  /** The name a new instance gets. */
  function OpPackageName(packageName: string, lookup: Lookup): string {
    if |packageName| > 0 then packageName
    else match lookup
      case NoService => packageName
      case Packages(names) => if names != [] then names[0] else packageName
  }

  /** std::map::insert: an existing binding wins. */
  function Insert(m: Instances, name: string, instance: SensorManager): Instances {
    if name in m then m else m[name := instance]
  }

  /** One call that returned r: m' is the map after it. A new instance is one no name is bound to. */
  ghost predicate Get(m: Instances, m': Instances, packageName: string, lookup: Lookup, r: SensorManager) {
    if packageName in m then m' == m && r == m[packageName]
    else
      var op := OpPackageName(packageName, lookup);
      && r !in m.Values && r.opPackageName == op
      && m' == Insert(if |packageName| == 0 then Insert(m, "", r) else m, op, r)
  }

  datatype Call = Call(packageName: string, lookup: Lookup)

  /** maps[k] is the map before the k-th call and results[k] what that call returned. */
  ghost predicate IsRun(maps: seq<Instances>, calls: seq<Call>, results: seq<SensorManager>) {
    && |maps| == |calls| + 1 && |results| == |calls|
    && maps[0] == map[]
    && forall k :: 0 <= k < |calls| ==> Get(maps[k], maps[k + 1], calls[k].packageName, calls[k].lookup, results[k])
  }

  ghost predicate WellNamed(m: Instances) {
    forall n :: n in m && |n| > 0 ==> m[n].opPackageName == n
  }

  lemma GetKeeps(m: Instances, m': Instances, c: Call, r: SensorManager)
    requires Get(m, m', c.packageName, c.lookup, r) && WellNamed(m)
    ensures WellNamed(m')
    ensures forall n :: n in m ==> n in m' && m'[n] == m[n]
    ensures c.packageName in m' && m'[c.packageName] == r
  {
  }

  lemma {:induction false} RunWellNamed(maps: seq<Instances>, calls: seq<Call>, results: seq<SensorManager>, k: nat)
    requires IsRun(maps, calls, results) && k <= |calls|
    ensures WellNamed(maps[k])
  {
    if k > 0 {
      RunWellNamed(maps, calls, results, k - 1);
      GetKeeps(maps[k - 1], maps[k], calls[k - 1], results[k - 1]);
    }
  }

  /** No call changes or removes a binding. */
  lemma {:induction false} BindingsNeverChange(
    maps: seq<Instances>, calls: seq<Call>, results: seq<SensorManager>, i: nat, j: nat, name: string)
    requires IsRun(maps, calls, results) && i <= j <= |calls| && name in maps[i]
    ensures name in maps[j] && maps[j][name] == maps[i][name]
    decreases j
  {
    if i < j {
      BindingsNeverChange(maps, calls, results, i, j - 1, name);
      RunWellNamed(maps, calls, results, j - 1);
      GetKeeps(maps[j - 1], maps[j], calls[j - 1], results[j - 1]);
    }
  }

  /** Two calls with the same name return the same instance, whatever the package lookups answered in
      between; two calls with different non-empty names return different ones, each carrying the name
      it was asked for. */
  lemma OneInstancePerName(
    maps: seq<Instances>, calls: seq<Call>, results: seq<SensorManager>, i: nat, j: nat)
    requires IsRun(maps, calls, results) && i < j < |calls|
    ensures calls[i].packageName == calls[j].packageName ==> results[i] == results[j]
    ensures |calls[i].packageName| > 0 && |calls[j].packageName| > 0 ==>
              && results[i].opPackageName == calls[i].packageName
              && (results[i] == results[j] <==> calls[i].packageName == calls[j].packageName)
  {
    RunWellNamed(maps, calls, results, i);
    GetKeeps(maps[i], maps[i + 1], calls[i], results[i]);
    RunWellNamed(maps, calls, results, j);
    GetKeeps(maps[j], maps[j + 1], calls[j], results[j]);
    BindingsNeverChange(maps, calls, results, i + 1, j + 1, calls[i].packageName);
  }

  /** Only the empty name can share an instance with another name. */
  lemma OnlyEmptyNameAliases(
    maps: seq<Instances>, calls: seq<Call>, results: seq<SensorManager>, k: nat, n: string, p: string)
    requires IsRun(maps, calls, results) && k <= |calls|
    requires n in maps[k] && p in maps[k] && n != p && maps[k][n] == maps[k][p]
    ensures n == "" || p == ""
    ensures maps[k][n].opPackageName == if n == "" then p else n
  {
    RunWellNamed(maps, calls, results, k);
    if |n| == 0 {
      assert n == "";
    }
    if |p| == 0 {
      assert p == "";
    }
  }

  /** The first call with the empty name: its instance is shared with the looked-up package exactly
      when that package had no instance yet; otherwise that package keeps its own. */
  lemma EmptyNameSharing(m: Instances, m': Instances, lookup: Lookup, r: SensorManager)
    requires Get(m, m', "", lookup, r) && "" !in m
    ensures var op := if lookup.Packages? && |lookup.names| > 0 then lookup.names[0] else "";
            && m'[""] == r && op in m' && r.opPackageName == op
            && (m'[op] == r <==> op !in m)
            && (op in m ==> m'[op] == m[op])
            && m'.Keys == m.Keys + {"", op}
  {
    var op := OpPackageName("", lookup);
    if op in m {
      assert m[op] in m.Values;
    }
  }

  /** A call with a package name binds that name to an instance of that name, once. */
  lemma NamedBinding(m: Instances, m': Instances, packageName: string, lookup: Lookup, r: SensorManager)
    requires Get(m, m', packageName, lookup, r) && packageName != ""
    ensures if packageName in m then m' == m && r == m[packageName]
            else m' == m[packageName := r] && r.opPackageName == packageName && r !in m.Values
  {
  }

  /** The static part of the class: the map and the function that fills it. */
  class Registry {
    var instances: Instances

    constructor ()
      ensures instances == map[]
    {
      instances := map[];
    }

    /** world and at are what the constructor of a new instance meets; if it ends the process, no call
        follows. */
    method GetInstanceForPackage(packageName: string, lookup: Lookup, world: World, at: Window -> bool)
        returns (r: SensorManager)
      modifies this`instances
      ensures Get(old(instances), instances, packageName, lookup, r)
      ensures packageName !in old(instances) ==>
                fresh(r) && (r.aborted <==> !Construct(world, at).Done?)
    {
      if packageName in instances {
        r := instances[packageName];
      } else {
        var opPackageName := packageName;
        if |opPackageName| <= 0 {
          if lookup.Packages? {
            if lookup.names != [] {
              opPackageName := lookup.names[0];
            }
          }
        }
        r := new SensorManager(opPackageName, world, at);
        if |packageName| <= 0 {
          instances := Insert(instances, "", r);
        }
        instances := Insert(instances, opPackageName, r);
      }
    }
  }
}
