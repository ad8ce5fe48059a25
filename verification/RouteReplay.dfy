/**
 * Choosing the index translation for saved route dumps from the devices
 * recorded before setup and the devices present now.
 */
module RouteReplay {
  import opened Results
  import opened RouteDump

  /** A link as inventoried; `mac` is lower case, and empty when the record carries no address. */
  datatype Device = Device(name: string, index: u32, mac: string)

  datatype Fault =
    | MissingInterface(name: string)
    | UnverifiedIdentity(name: string)
    | DuplicateIndex(index: u32)
    | UnsupportedFamily(family: string)
    | BadDump(error: RouteDump.Error)

  datatype SavedRoutes = SavedRoutes(family: string, data: seq<byte>)

  /** The live inventory by name; a later entry replaces an earlier one. */
  function ByName(links: seq<Device>): map<string, Device> {
    if links == [] then map[] else ByName(links[..|links| - 1])[links[|links| - 1].name := links[|links| - 1]]
  }

  /** The same card: equal addresses, or no recorded address and an unchanged index. */
  predicate SameDevice(before: Device, now: Device) {
    && (before.mac != "" ==> before.mac == now.mac)
    && (before.index != now.index ==> before.mac != "")
  }

  /** `m` sends exactly the saved indexes to the live indexes of the same devices. */
  ghost predicate Translates(m: map<u32, u32>, saved: seq<Device>, live: map<string, Device>) {
    && (forall i | 0 <= i < |saved| ::
          && saved[i].name in live && SameDevice(saved[i], live[saved[i].name])
          && saved[i].index in m && m[saved[i].index] == live[saved[i].name].index)
    && (forall i, j | 0 <= i < j < |saved| :: saved[i].index != saved[j].index)
    && (forall x | x in m :: exists i :: 0 <= i < |saved| && saved[i].index == x)
  }

  ghost predicate FaultAt(fault: Fault, saved: seq<Device>, live: map<string, Device>, i: nat)
    requires i < |saved|
  {
    var before := saved[i];
    match fault
    case MissingInterface(name) => name == before.name && name !in live
    case UnverifiedIdentity(name) => name == before.name && name in live && !SameDevice(before, live[name])
    case DuplicateIndex(index) => index == before.index && exists j :: 0 <= j < i && saved[j].index == index
    case _ => false
  }

  /** Nothing is wrong with the `i`-th device: it is present, it is the same card, and its index is new. */
  ghost predicate SoundAt(saved: seq<Device>, live: map<string, Device>, i: nat)
    requires i < |saved|
  {
    && saved[i].name in live && SameDevice(saved[i], live[saved[i].name])
    && forall j | 0 <= j < i :: saved[j].index != saved[i].index
  }

  ghost predicate Sound(saved: seq<Device>, live: map<string, Device>) {
    forall i | 0 <= i < |saved| :: SoundAt(saved, live, i)
  }

  /** Every saved device is live, by its address or, if none was saved, its index, and no index was saved twice. */
  ghost predicate AllRecognised(saved: seq<Device>, live: map<string, Device>) {
    && (forall i | 0 <= i < |saved| ::
          && saved[i].name in live
          && if saved[i].mac == "" then saved[i].index == live[saved[i].name].index
             else saved[i].mac == live[saved[i].name].mac)
    && forall i, j | 0 <= i < j < |saved| :: saved[i].index != saved[j].index
  }

  lemma SoundIs(saved: seq<Device>, live: map<string, Device>)
    ensures Sound(saved, live) <==> AllRecognised(saved, live)
  {
    forall i | 0 <= i < |saved|
      ensures SoundAt(saved, live, i)
         <==> && saved[i].name in live
              && (if saved[i].mac == "" then saved[i].index == live[saved[i].name].index
                  else saved[i].mac == live[saved[i].name].mac)
              && forall j | 0 <= j < i :: saved[j].index != saved[i].index
    {
    }
    hide SoundAt, SameDevice;
  }

  lemma TranslatedAreSound(m: map<u32, u32>, saved: seq<Device>, live: map<string, Device>)
    requires Translates(m, saved, live)
    ensures Sound(saved, live)
  {
  }

  method Inventory(links: seq<Device>) returns (current: map<string, Device>)
    ensures current == ByName(links)
  {
    current := map[];
    for k := 0 to |links|
      invariant current == ByName(links[..k])
    {
      assert links[..k + 1][..k] == links[..k];
      current := current[links[k].name := links[k]];
    }
    assert links[..|links|] == links;
  }

  lemma OneMore(m: map<u32, u32>, saved: seq<Device>, live: map<string, Device>, k: nat)
    requires k < |saved| && Translates(m, saved[..k], live)
    requires saved[k].name in live && SameDevice(saved[k], live[saved[k].name]) && saved[k].index !in m
    ensures Translates(m[saved[k].index := live[saved[k].name].index], saved[..k + 1], live)
  {
    var m', now := m[saved[k].index := live[saved[k].name].index], saved[..k + 1];
    assert forall i | 0 <= i < k :: now[i] == saved[..k][i];
    forall x | x in m'
      ensures exists i :: 0 <= i < |now| && now[i].index == x
    {
      if x in m {
        var i :| 0 <= i < k && saved[..k][i].index == x;
        assert now[i].index == x;
      } else {
        assert now[k].index == x;
      }
    }
  }

  method DeviceIndexes(saved: seq<Device>, links: seq<Device>) returns (r: Result<map<u32, u32>, Fault>)
    ensures r.Ok? <==> Sound(saved, ByName(links))
    ensures r.Ok? <==> AllRecognised(saved, ByName(links))
    ensures r.Ok? ==> Translates(r.value, saved, ByName(links))
    ensures r.Err? ==> exists i: nat :: i < |saved| && FaultAt(r.error, saved, ByName(links), i)
  {
    var current := Inventory(links);
    SoundIs(saved, current);
    hide AllRecognised;
    var indexes: map<u32, u32> := map[];
    for k := 0 to |saved|
      invariant Translates(indexes, saved[..k], current)
    {
      var before := saved[k];
      if before.name !in current {
        assert FaultAt(MissingInterface(before.name), saved, current, k) && !SoundAt(saved, current, k);
        return Err(MissingInterface(before.name));
      }
      var now := current[before.name];
      if !SameDevice(before, now) {
        assert FaultAt(UnverifiedIdentity(before.name), saved, current, k) && !SoundAt(saved, current, k);
        return Err(UnverifiedIdentity(before.name));
      }
      if before.index in indexes {
        assert exists j :: 0 <= j < k && saved[..k][j].index == before.index;
        assert FaultAt(DuplicateIndex(before.index), saved, current, k) && !SoundAt(saved, current, k);
        return Err(DuplicateIndex(before.index));
      }
      OneMore(indexes, saved, current, k);
      indexes := indexes[before.index := now.index];
    }
    assert saved[..|saved|] == saved;
    TranslatedAreSound(indexes, saved, current);
    return Ok(indexes);
  }

  /** What one saved dump becomes under the chosen translation. */
  ghost predicate Rebuilt(saved: SavedRoutes, image: SavedRoutes, m: map<u32, u32>) {
    && Supported(saved.family) && image.family == saved.family
    && ScanDump(saved.data, m).Ok? && Translatable(saved.data, m, ScanDump(saved.data, m).value)
    && image.data == Patch(saved.data, m, ScanDump(saved.data, m).value)
  }

  predicate Supported(family: string) {
    family == "-4" || family == "-6"
  }

  ghost predicate Replayable(saved: SavedRoutes, m: map<u32, u32>) {
    Supported(saved.family) && ScanDump(saved.data, m).Ok?
  }

  ghost predicate RouteFault(fault: Fault, saved: SavedRoutes, m: map<u32, u32>) {
    match fault
    case UnsupportedFamily(family) => family == saved.family && !Supported(family)
    case BadDump(error) => Supported(saved.family) && ScanDump(saved.data, m) == Err(error)
    case _ => false
  }

  /**
   * The images to replay; the saved dumps are values and cannot change. They are made exactly
   * when every device is sound and every dump can be read under their translation; otherwise
   * the fault is that of a device, or of the first dump that cannot.
   */
  method RestoredRoutes(saved: seq<Device>, routes: seq<SavedRoutes>, links: seq<Device>)
    returns (r: Result<seq<SavedRoutes>, Fault>, ghost m: map<u32, u32>)
    ensures Sound(saved, ByName(links)) ==> Translates(m, saved, ByName(links))
    ensures r.Ok? <==> Sound(saved, ByName(links)) && forall i | 0 <= i < |routes| :: Replayable(routes[i], m)
    ensures r.Ok? ==> |r.value| == |routes| && forall i | 0 <= i < |routes| :: Rebuilt(routes[i], r.value[i], m)
    ensures r.Err? && !Sound(saved, ByName(links)) ==>
              exists i: nat :: i < |saved| && FaultAt(r.error, saved, ByName(links), i)
    ensures r.Err? && Sound(saved, ByName(links)) ==>
              exists k: nat :: k < |routes| && RouteFault(r.error, routes[k], m)
                               && forall i | 0 <= i < k :: Replayable(routes[i], m)
  {
    var indexes := DeviceIndexes(saved, links);
    m := map[];
    if indexes.Err? {
      return Err(indexes.error), m;
    }
    m := indexes.value;
    var result: seq<SavedRoutes> := [];
    for k := 0 to |routes|
      invariant |result| == k
      invariant forall i | 0 <= i < k :: Replayable(routes[i], m) && Rebuilt(routes[i], result[i], m)
    {
      if !Supported(routes[k].family) {
        assert RouteFault(UnsupportedFamily(routes[k].family), routes[k], m);
        return Err(UnsupportedFamily(routes[k].family)), m;
      }
      var image := RemapRouteDump(routes[k].data, indexes.value);
      if image.Err? {
        assert RouteFault(BadDump(image.error), routes[k], m);
        return Err(BadDump(image.error)), m;
      }
      result := result + [SavedRoutes(routes[k].family, image.value)];
    }
    return Ok(result), m;
  }

  /** Live names own distinct, positive indexes, as the kernel guarantees. */
  ghost predicate KernelIndexes(live: map<string, Device>) {
    && (forall n | n in live :: live[n].name == n && live[n].index != 0)
    && (forall a, b | a in live && b in live && a != b :: live[a].index != live[b].index)
  }

  ghost function Reverse(m: map<u32, u32>): map<u32, u32> {
    map y | y in m.Values :: (var x :| x in m && m[x] == y; x)
  }

  /** No saved interface is listed twice, so no two saved indexes meet in one live index. */
  lemma TranslationReverses(m: map<u32, u32>, saved: seq<Device>, live: map<string, Device>)
    requires Translates(m, saved, live) && KernelIndexes(live)
    requires forall i, j | 0 <= i < j < |saved| :: saved[i].name != saved[j].name
    ensures Undoes(Reverse(m), m)
  {
    forall x | x in m && x != 0
      ensures m[x] != 0 && m[x] in Reverse(m) && Reverse(m)[m[x]] == x
    {
      var i :| 0 <= i < |saved| && saved[i].index == x;
      assert m[x] in m.Values;
      var y := Reverse(m)[m[x]];
      var j :| 0 <= j < |saved| && saved[j].index == y;
      assert live[saved[i].name].index == live[saved[j].name].index;
      assert saved[i].name == saved[j].name;
    }
  }

  /** After a device renumbering, the replayed dump still determines the saved one. */
  lemma ReplayKeepsEverything(saved: SavedRoutes, image: SavedRoutes, m: map<u32, u32>, devices: seq<Device>,
                              live: map<string, Device>)
    requires Translates(m, devices, live) && KernelIndexes(live) && Rebuilt(saved, image, m)
    requires forall i, j | 0 <= i < j < |devices| :: devices[i].name != devices[j].name
    ensures Rebuilt(image, saved, Reverse(m))
  {
    TranslationReverses(m, devices, live);
    RoundTrip(saved.data, m, Reverse(m));
  }
}
