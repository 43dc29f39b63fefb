/** An in-memory location registry: the store behind the abstract LocationDatabase
    contract, holding region and service records in insertion order. */
module Locations {
  import opened Wrappers
  import opened RegionTree
  import RegionPath

  class LocationDatabase {
    var regions: seq<Region>
    var services: seq<Service>
    /** The ids the store gives the next inserted region and service; ids are never reused. */
    var nextRegionId: int
    var nextServiceId: int

    /** Ids are positive, already issued, and ascending in store order (hence unique). */
    ghost predicate Valid()
      reads this
    {
      && 1 <= nextRegionId && 1 <= nextServiceId
      && Ascending(regions, RegionId) && Ascending(services, ServiceId)
      && (forall r :: r in regions ==> 1 <= r.id < nextRegionId)
      && (forall s :: s in services ==> 1 <= s.id < nextServiceId)
    }

    /** An initialised, empty store. */
    constructor ()
      ensures Valid()
      ensures regions == [] && services == []
    {
      regions, services := [], [];
      nextRegionId, nextServiceId := 1, 1;
    }

    /** All stored regions; no two carry the same id. */
    function FindAllRegions(): (all: seq<Region>)
      reads this
      requires Valid()
      ensures forall i, j :: 0 <= i < |all| && 0 <= j < |all| && all[i].id == all[j].id ==> i == j
    {
      regions
    }

    /** All stored services; no two carry the same id. */
    function FindAllServices(): (all: seq<Service>)
      reads this
      requires Valid()
      ensures forall i, j :: 0 <= i < |all| && 0 <= j < |all| && all[i].id == all[j].id ==> i == j
    {
      services
    }

    /** Adds a region with a fresh id, carrying exactly the given fields; nothing
        stored before changes. */
    method InsertRegion(region: string, regionType: string, parentId: Option<int>,
                        latitude: Coordinate, longitude: Coordinate) returns (id: int)
      requires Valid()
      modifies this
      ensures Valid()
      ensures forall r :: r in old(FindAllRegions()) ==> r.id != id
      ensures FindAllRegions() == old(FindAllRegions()) + [Region(id, region, regionType, parentId, latitude, longitude)]
      ensures FindAllServices() == old(FindAllServices())
    {
      id := nextRegionId;
      regions := regions + [Region(id, region, regionType, parentId, latitude, longitude)];
      nextRegionId := nextRegionId + 1;
    }

    /** Adds a service with a fresh id to the given region; contact fields not
        supplied are absent. Nothing stored before changes. */
    method InsertService(service: string, serviceType: string, regionId: int,
                         latitude: Coordinate, longitude: Coordinate,
                         address: Option<string> := None, phone: Option<string> := None,
                         website: Option<string> := None) returns (id: int)
      requires Valid()
      modifies this
      ensures Valid()
      ensures forall s :: s in old(FindAllServices()) ==> s.id != id
      ensures FindAllServices() == old(FindAllServices())
                                   + [Service(id, service, serviceType, regionId, latitude, longitude, address, phone, website)]
      ensures FindAllRegions() == old(FindAllRegions())
    {
      id := nextServiceId;
      services := services + [Service(id, service, serviceType, regionId, latitude, longitude, address, phone, website)];
      nextServiceId := nextServiceId + 1;
    }

    /** The services attached to `regionId` or to any region below it, of the given
        type when one is given: every one of them, and nothing else. */
    function FindServicesIn(regionId: int, serviceType: Option<string>): (found: seq<Service>)
      reads this
      ensures forall s :: s in found <==>
                s in services && InSubtree(regions, regionId, s.regionId) && Matches(s, serviceType)
      ensures serviceType.Some? ==> forall s :: s in found ==> s.serviceType == serviceType.value
      ensures Valid() ==> forall i, j :: 0 <= i < j < |found| ==> found[i].id < found[j].id
    {
      Select(services, Closure(regions, regionId), serviceType)
    }

    /** The region at the end of the comma-separated path of names, walked from a
        root downward. A found region is stored and ends a chain of stored regions
        carrying exactly those names; when siblings have distinct names, the end of
        any such chain is found. */
    function FindRegionByPath(regionPath: string): (found: Option<Region>)
      reads this
      ensures found.Some? ==> found.value in regions
      ensures found.Some? ==> exists chain :: IsNamedChain(regions, None, chain, RegionPath.Split(regionPath))
                                              && chain[|chain| - 1] == found.value
      ensures UniqueSiblingNames(regions) ==>
                forall chain :: IsNamedChain(regions, None, chain, RegionPath.Split(regionPath)) ==>
                  found == Some(chain[|chain| - 1])
    {
      var names := RegionPath.Split(regionPath);
      assert UniqueSiblingNames(regions) ==>
               forall chain :: IsNamedChain(regions, None, chain, names) ==>
                 Walk(regions, None, names) == Some(chain[|chain| - 1]) by {
        if UniqueSiblingNames(regions) {
          forall chain | IsNamedChain(regions, None, chain, names)
            ensures Walk(regions, None, names) == Some(chain[|chain| - 1])
          {
            WalkFindsChain(regions, None, chain, names);
          }
        }
      }
      Walk(regions, None, names)
    }

    /** Deletes the region with that id (if any); every other region and every
        service stays as it was. Children and services of the removed region are kept. */
    method RemoveRegion(regionId: int)
      requires Valid()
      modifies this
      ensures Valid()
      ensures FindAllRegions() == Without(old(FindAllRegions()), RegionId, regionId)
      ensures forall r :: r in FindAllRegions() <==> r in old(FindAllRegions()) && r.id != regionId
      ensures FindAllServices() == old(FindAllServices())
    {
      regions := Without(regions, RegionId, regionId);
    }

    /** Deletes the service with that id (if any); all regions and every other
        service stay as they were. */
    method RemoveService(serviceId: int)
      requires Valid()
      modifies this
      ensures Valid()
      ensures FindAllServices() == Without(old(FindAllServices()), ServiceId, serviceId)
      ensures forall s :: s in FindAllServices() <==> s in old(FindAllServices()) && s.id != serviceId
      ensures FindAllRegions() == old(FindAllRegions())
    {
      services := Without(services, ServiceId, serviceId);
    }

    /** Removes every region and every service. */
    method ClearDatabase()
      requires Valid()
      modifies this
      ensures Valid()
      ensures FindAllRegions() == [] && FindAllServices() == []
    {
      regions, services := [], [];
    }
  }

  /** A service found in a region below `ancestor` is also found in `ancestor`. */
  lemma ServicesInDescendantIncluded(store: LocationDatabase, ancestor: int, descendant: int, serviceType: Option<string>)
    requires InSubtree(store.regions, ancestor, descendant)
    ensures forall s :: s in store.FindServicesIn(descendant, serviceType) ==> s in store.FindServicesIn(ancestor, serviceType)
  {
    SubtreeTransitive(store.regions, ancestor, descendant);
  }

  /** The services found in a region are those attached to it directly together with
      those found in its immediate children. */
  lemma ServicesInUnfold(store: LocationDatabase, regionId: int, serviceType: Option<string>)
    ensures forall s :: s in store.FindServicesIn(regionId, serviceType) <==>
              (s in store.services && Matches(s, serviceType) && s.regionId == regionId)
              || exists i :: 0 <= i < |store.regions| && store.regions[i].parentId == Some(regionId)
                             && s in store.FindServicesIn(store.regions[i].id, serviceType)
  {
    forall s | s in store.services
      ensures InSubtree(store.regions, regionId, s.regionId) <==>
              s.regionId == regionId
              || exists i :: 0 <= i < |store.regions| && store.regions[i].parentId == Some(regionId)
                             && InSubtree(store.regions, store.regions[i].id, s.regionId)
    {
      SubtreeUnfold(store.regions, regionId, s.regionId);
    }
  }

  /** The comma-joined names of a chain of stored regions from a root, none of
      them containing a comma, resolve to the last region of the chain when siblings
      have distinct names. */
  lemma PathOfChainResolves(store: LocationDatabase, chain: seq<Region>, names: seq<string>)
    requires UniqueSiblingNames(store.regions)
    requires IsNamedChain(store.regions, None, chain, names)
    requires forall k :: 0 <= k < |names| ==> RegionPath.Delimiter !in names[k]
    ensures store.FindRegionByPath(RegionPath.Join(names)) == Some(chain[|chain| - 1])
  {
    RegionPath.SplitJoin(names);
  }

  /** A root with one child that has one child forms a named chain; their parent
      links differ, so no two of the three share both parent and name. */
  lemma ThreeLevels(a: Region, b: Region, c: Region)
    requires a.parentId == None && b.parentId == Some(a.id) && c.parentId == Some(b.id) && a.id != b.id
    ensures IsNamedChain([a, b, c], None, [a, b, c], [a.name, b.name, c.name])
    ensures UniqueSiblingNames([a, b, c])
  {
  }

  lemma ScenarioPath()
    ensures RegionPath.Split("Canada,Ontario,Toronto") == ["Canada", "Ontario", "Toronto"]
  {
    var names := ["Canada", "Ontario", "Toronto"];
    assert RegionPath.Join(names) == "Canada,Ontario,Toronto";
    RegionPath.SplitJoin(names);
  }

  /** Builds the regions of the scenarios below: Canada, Ontario inside it and
      Toronto inside that. */
  method ScenarioRegions() returns (db: LocationDatabase, canada: int, ontario: int, toronto: int)
    ensures fresh(db) && db.Valid()
    ensures canada != ontario
    ensures db.regions == [Region(canada, "Canada", "country", None, 0.0, 0.0),
                           Region(ontario, "Ontario", "province", Some(canada), 0.0, 0.0),
                           Region(toronto, "Toronto", "city", Some(ontario), 0.0, 0.0)]
    ensures db.services == []
  {
    db := new LocationDatabase();
    canada := db.InsertRegion("Canada", "country", None, 0.0, 0.0);
    ontario := db.InsertRegion("Ontario", "province", Some(canada), 0.0, 0.0);
    toronto := db.InsertRegion("Toronto", "city", Some(ontario), 0.0, 0.0);
  }

  /** Builds the store of the scenarios below: the regions of `ScenarioRegions` and
      one clinic in Toronto. */
  method ScenarioStore() returns (db: LocationDatabase, canada: int, ontario: int, toronto: int, clinic: int)
    ensures fresh(db) && db.Valid()
    ensures canada != ontario
    ensures db.regions == [Region(canada, "Canada", "country", None, 0.0, 0.0),
                           Region(ontario, "Ontario", "province", Some(canada), 0.0, 0.0),
                           Region(toronto, "Toronto", "city", Some(ontario), 0.0, 0.0)]
    ensures db.services == [Service(clinic, "ClinicA", "clinic", toronto, 0.0, 0.0, None, None, None)]
  {
    db, canada, ontario, toronto := ScenarioRegions();
    clinic := db.InsertService("ClinicA", "clinic", toronto, 0.0, 0.0);
  }

  /** In the scenario store the full path "Canada,Ontario,Toronto" resolves to the
      stored city, whose parent is the stored province under the root country. */
  method ScenarioPathLookup() returns (db: LocationDatabase, city: Option<Region>)
    ensures |db.regions| == 3
    ensures db.regions[0].name == "Canada" && db.regions[0].parentId == None
    ensures db.regions[1].name == "Ontario" && db.regions[1].parentId == Some(db.regions[0].id)
    ensures db.regions[2] == Region(db.regions[2].id, "Toronto", "city", Some(db.regions[1].id), 0.0, 0.0)
    ensures city == db.FindRegionByPath("Canada,Ontario,Toronto")
    ensures city == Some(db.regions[2])
  {
    var canada, ontario, toronto, clinic;
    db, canada, ontario, toronto, clinic := ScenarioStore();
    var rs := db.regions;
    ThreeLevels(rs[0], rs[1], rs[2]);
    assert rs == [rs[0], rs[1], rs[2]];
    ScenarioPath();
    city := db.FindRegionByPath("Canada,Ontario,Toronto");
  }

  /** In the scenario store the country finds its one service, the clinic two levels
      below it. */
  method ScenarioServices() returns (db: LocationDatabase, inCountry: seq<Service>)
    ensures |db.regions| == 3 && db.regions[0].name == "Canada" && db.regions[1].name == "Ontario"
    ensures db.regions[1].parentId == Some(db.regions[0].id) && db.regions[2].parentId == Some(db.regions[1].id)
    ensures |db.services| == 1 && db.services[0].name == "ClinicA" && db.services[0].regionId == db.regions[2].id
    ensures inCountry == db.FindServicesIn(db.regions[0].id, None)
    ensures inCountry == db.services
  {
    var canada, ontario, toronto, clinic;
    db, canada, ontario, toronto, clinic := ScenarioStore();
    var rs, svc := db.regions, db.services[0];
    assert Descends(rs, toronto, canada, 2) by {
      assert Descends(rs, ontario, canada, 1) by { assert rs[1].id == ontario; }
      assert rs[2].id == toronto;
    }
    inCountry := db.FindServicesIn(canada, None);
    assert svc in inCountry;
    assert inCountry == [svc] by {
      assert |inCountry| == 1;
      assert inCountry[0] in db.services;
    }
  }

  /** In the scenario store, filtering the province by a type no service has finds nothing. */
  method ScenarioNoSupportGroup() returns (db: LocationDatabase, supportInProvince: seq<Service>)
    ensures |db.regions| == 3 && db.regions[1].name == "Ontario"
    ensures forall s :: s in db.services ==> s.serviceType != "support_group"
    ensures supportInProvince == db.FindServicesIn(db.regions[1].id, Some("support_group"))
    ensures supportInProvince == []
  {
    var canada, ontario, toronto, clinic;
    db, canada, ontario, toronto, clinic := ScenarioStore();
    supportInProvince := db.FindServicesIn(ontario, Some("support_group"));
  }
}
