/**
 The device identity cache (device_cache.go): devices by id, alternate ids as
 aliases, and addresses. Entries are shared objects that merges update in
 place. Valid is what every operation keeps.

 Belongs says which device a row of a flow log or of the stored metadata is
 proved to be, and Took how the addresses move when it joins that device. The
 empty address is apart from the others: lists drop it while the address table
 keeps it, so EmptyAddressLive is followed through every operation.
 */
module DeviceCache {
  import opened PairGroups
  import opened Strings

  predicate IsStableNodeID(id: string) {
    |id| >= 8 && id[|id| - 5..] == "CNTRL"
  }

  function PreferredID(current: string, incoming: string): string {
    if IsStableNodeID(incoming) && !IsStableNodeID(current) then incoming else current
  }

  /** unionStrings: both lists in order, without empty strings and repeats. */
  function Union(base: seq<string>, extra: seq<string>): (u: seq<string>)
    ensures extra == [] ==> u == base
    ensures extra != [] ==> forall s :: s in u <==> s != "" && (s in base || s in extra)
  {
    if extra == [] then base else Cleaned(base + extra)
  }

  function Cleaned(list: seq<string>): (u: seq<string>)
    ensures forall s :: s in u <==> s != "" && s in list
    ensures forall i, j :: 0 <= i < j < |u| ==> u[i] != u[j]
  {
    if list == [] then []
    else
      var front, last := Cleaned(list[..|list| - 1]), list[|list| - 1];
      assert list == list[..|list| - 1] + [last];
      if last == "" || last in front then front else front + [last]
  }

  /** One row of the device list. */
  datatype Device = Device(id: string, nodeID: string, legacyID: string, addresses: seq<string>)

  class Entry {
    var id: string
    var nodeID: string
    var ips: seq<string>
    var fromAPI: bool
    var flowSeen: Option<int>   // None is the zero time
    var legacyID: string
    var apiLegacyID: string
    var aliases: seq<string>

    constructor (id: string, nodeID: string, ips: seq<string>, fromAPI: bool, flowSeen: Option<int>, legacyID: string,
                 apiLegacyID: string)
      ensures this.id == id && this.nodeID == nodeID && this.ips == ips && this.fromAPI == fromAPI
      ensures this.flowSeen == flowSeen && this.legacyID == legacyID && this.apiLegacyID == apiLegacyID && aliases == []
    {
      this.id, this.nodeID, this.ips, this.fromAPI := id, nodeID, ips, fromAPI;
      this.flowSeen, this.legacyID, this.apiLegacyID, this.aliases := flowSeen, legacyID, apiLegacyID, [];
    }
  }

  /** a.After(b) on times where None is the zero time. */
  predicate After(a: Option<int>, b: Option<int>) {
    a.Some? && (b.None? || a.value > b.value)
  }

  /** The later of two times, either of which may be missing. */
  function Later(a: Option<int>, b: Option<int>): Option<int> {
    if a.None? then b else if b.None? || b.value <= a.value then a else b
  }

  lemma LaterOfOne(a: Option<int>)
    ensures Later(a, a) == a
  {
  }

  class Cache {
    const isTailscaleIP: string -> bool
    var idToDevice: map<string, Entry>
    var ipToDevice: map<string, Entry>
    var aliases: map<string, string>

    ghost predicate Valid()
      reads this, idToDevice.Values
    {
      && (forall id :: id in idToDevice ==> id != "" && idToDevice[id].id == id)
      && AliasesReach()
      && AddressesOwned()
      && !isTailscaleIP("")
    }

    /** No alias is a device id, and each reaches in one hop a live device that lists it. */
    ghost predicate AliasesReach()
      reads this, idToDevice.Values
    {
      forall a :: a in aliases ==>
        a != "" && a !in idToDevice && aliases[a] in idToDevice && a in idToDevice[aliases[a]].aliases
    }

    /** Every address maps to a live entry, and a flow-only entry lists its addresses. */
    ghost predicate AddressesOwned()
      reads this, idToDevice.Values
    {
      forall ip :: ip in ipToDevice && ip != "" ==>
        ipToDevice[ip] in idToDevice.Values && (ipToDevice[ip].fromAPI || ip in ipToDevice[ip].ips)
    }

    /** The same for the empty address, which metadata rows may carry. */
    ghost predicate EmptyAddressLive()
      reads this
    {
      "" in ipToDevice ==> ipToDevice[""] in idToDevice.Values
    }

    constructor (isTailscaleIP: string -> bool)
      requires !isTailscaleIP("")
      ensures Valid() && idToDevice == map[] && ipToDevice == map[] && aliases == map[]
      ensures this.isTailscaleIP == isTailscaleIP
    {
      this.isTailscaleIP := isTailscaleIP;
      idToDevice, ipToDevice, aliases := map[], map[], map[];
    }

    /** deviceLocked, by a canonical id or an alias. */
    function Find(id: string): (e: Option<Entry>)
      requires Valid()
      reads this, idToDevice.Values
      ensures e.Some? ==> e.value in idToDevice.Values
      ensures e.None? <==> id !in idToDevice && id !in aliases
    {
      if id == "" then None
      else if id in idToDevice then Some(idToDevice[id])
      else if id in aliases then Some(idToDevice[aliases[id]])
      else None
    }

    /** Every id that finds a device, with the device. */
    ghost function Known(): map<string, Entry>
      requires Valid()
      reads this, idToDevice.Values
    {
      KnownBy(idToDevice, aliases)
    }

    /** Known tells what every id finds. */
    lemma KnownIsFound(id: string)
      requires Valid()
      ensures Find(id) == if id in Known() then Some(Known()[id]) else None
    {
    }

    method AliasLocked(alias: string, canonical: string, ghost target: Entry)
      requires Valid() && canonical in idToDevice && idToDevice[canonical] == target
      modifies this`aliases, target`aliases
      ensures Valid()
      ensures aliases == if alias == "" || alias in idToDevice then old(aliases) else old(aliases)[alias := canonical]
      ensures Known() == if alias == "" || alias in idToDevice then old(Known()) else old(Known())[alias := target]
    {
      if alias == "" || canonical == "" || alias == canonical {
        return;
      }
      if alias in idToDevice {
        return;
      }
      if alias in aliases && aliases[alias] == canonical {
        return;
      }
      aliases := aliases[alias := canonical];
      var entry := idToDevice[canonical];
      entry.aliases := entry.aliases + [alias];
    }

    method MapIPLocked(ip: string, entry: Entry)
      requires Valid() && entry in idToDevice.Values && (entry.fromAPI || ip == "" || ip in entry.ips)
      modifies this`ipToDevice
      ensures Valid()
      ensures Took(old(ipToDevice), ipToDevice, [ip], entry)
    {
      if ip in ipToDevice && ipToDevice[ip] != entry {
        var current := ipToDevice[ip];
        if current.fromAPI && !entry.fromAPI {
          return;
        }
        if !current.fromAPI && !entry.fromAPI && After(current.flowSeen, entry.flowSeen) {
          return;
        }
      }
      ipToDevice := ipToDevice[ip := entry];
    }

    /** Every alias that points at an entry is in its list. */
    lemma AliasesListed(e: Entry)
      requires Valid() && e in idToDevice.Values
      ensures forall a :: a in aliases && aliases[a] == e.id ==> a in e.aliases
    {
      var id :| id in idToDevice && idToDevice[id] == e;
    }

    /** Moves an entry to a new id; its old id and its aliases follow. */
    method RekeyLocked(entry: Entry, newID: string)
      requires Valid() && entry in idToDevice.Values && newID != "" && newID !in idToDevice
      modifies this`idToDevice, this`aliases, entry`id, entry`aliases
      ensures Valid() && entry.id == newID
      ensures idToDevice == (old(idToDevice) - {old(entry.id)})[newID := entry]
      ensures idToDevice.Values == old(idToDevice.Values)
      ensures aliases == Redirected(old(aliases), old(entry.id), newID)
      ensures Known() == old(Known())[newID := entry]
    {
      var oldID := entry.id;
      KnownRedirected(idToDevice, aliases, oldID, newID, entry);
      hide KnownBy;
      AliasesListed(entry);
      var moved, kept := MoveAliases(aliases - {newID}, entry.aliases, oldID, newID);
      ghost var before := aliases;
      MovedIsRedirected(before, entry.aliases, oldID, newID);
      SwapId(entry, newID, moved, kept);
      AliasLocked(oldID, newID, entry);
    }

    /** The assignments of rekeyLocked. */
    method SwapId(entry: Entry, newID: string, moved: map<string, string>, kept: seq<string>)
      requires Valid() && entry in idToDevice.Values && newID != "" && newID !in idToDevice
      requires moved == MovedTo(aliases - {newID}, entry.aliases, entry.id, newID)
      requires forall a :: a in kept <==> IsMoved(aliases - {newID}, entry.aliases, entry.id, a)
      modifies this`idToDevice, this`aliases, entry`id, entry`aliases
      ensures Valid() && entry.id == newID && aliases == moved
      ensures idToDevice == (old(idToDevice) - {old(entry.id)})[newID := entry]
      ensures idToDevice.Values == old(idToDevice.Values)
      ensures old(entry.id) !in idToDevice
    {
      AliasesListed(entry);
      OneIdEach();
      ghost var ids, als, oldID, list := idToDevice, aliases, entry.id, entry.aliases;
      SameEntries(ids, oldID, newID, entry);
      idToDevice := (idToDevice - {entry.id})[newID := entry];
      entry.id := newID;
      aliases := moved;
      entry.aliases := kept;
      assert AddressesOwned() by {
        hide AliasesReach, MovedTo, IsMoved;
      }
      hide AddressesOwned, AliasesReach, IsMoved, MovedTo;
      SwapReach(ids, als, entry, oldID, newID, list, kept);
      assert AliasesReach() by { SwapIsReach(); }
    }

    lemma SwapIsReach()
      requires forall a :: a in aliases ==>
                 a != "" && a !in idToDevice && aliases[a] in idToDevice && a in idToDevice[aliases[a]].aliases
      ensures AliasesReach()
    {
    }

    /**
     The device a row belongs to: the one its id finds, else the one its legacy
     id finds, else the holder of its first Tailscale address whose holder its
     ids may name. A row that belongs to no device becomes one itself.
     */
    ghost predicate Belongs(incoming: Entry, joined: Entry)
      requires Valid()
      reads this, idToDevice.Values, ipToDevice.Values, incoming, joined
    {
      if Find(incoming.id).Some? then joined == Find(incoming.id).value
      else if Find(incoming.legacyID).Some? then joined == Find(incoming.legacyID).value
      else if joined == incoming
      then forall ip :: ip in incoming.ips ==> !Hit(incoming, ip)
      else exists i :: 0 <= i < |incoming.ips| && Hit(incoming, incoming.ips[i])
                       && joined == ipToDevice[incoming.ips[i]]
                       && forall j :: 0 <= j < i ==> !Hit(incoming, incoming.ips[j])
    }

    /** A Tailscale address held by a device that both of the row's ids may name. */
    predicate Hit(incoming: Entry, ip: string)
      reads this, ipToDevice.Values, incoming
    {
      isTailscaleIP(ip) && ip in ipToDevice
      && MayBe(ipToDevice[ip], incoming.id) && MayBe(ipToDevice[ip], incoming.legacyID)
    }

    method MatchLocked(incoming: Entry) returns (existing: Option<Entry>)
      requires Valid() && incoming !in idToDevice.Values
      ensures existing.Some? ==> existing.value in idToDevice.Values
      ensures Belongs(incoming, if existing.Some? then existing.value else incoming)
      ensures Find(incoming.id).None? || Find(incoming.id) == existing
    {
      existing := Find(incoming.id);
      if existing.Some? {
        return;
      }
      existing := Find(incoming.legacyID);
      if existing.Some? {
        return;
      }
      var i := 0;
      while i < |incoming.ips|
        invariant 0 <= i <= |incoming.ips|
        invariant forall j :: 0 <= j < i ==> !Hit(incoming, incoming.ips[j])
      {
        var ip := incoming.ips[i];
        if ip in ipToDevice {
          ConflictIsExact(ipToDevice[ip], incoming);
        }
        if isTailscaleIP(ip) && ip in ipToDevice && !Conflict(ipToDevice[ip], incoming) {
          return Some(ipToDevice[ip]);
        }
        i := i + 1;
      }
    }

    /** Points a list of addresses at an entry that may hold them. */
    method MapIPs(ips: seq<string>, entry: Entry)
      requires Valid() && entry in idToDevice.Values
               && (entry.fromAPI || forall ip :: ip in ips ==> ip == "" || ip in entry.ips)
      modifies this`ipToDevice
      ensures Valid() && Took(old(ipToDevice), ipToDevice, ips, entry)
    {
      hide Took;
      TookNothing(ipToDevice, entry);
      var i := 0;
      assert ips[..0] == [];
      while i < |ips|
        invariant 0 <= i <= |ips|
        invariant Valid() && Took(old(ipToDevice), ipToDevice, ips[..i], entry)
      {
        ghost var before := ipToDevice;
        assert ips[i] in ips;
        MapIPLocked(ips[i], entry);
        TookMore(old(ipToDevice), before, ipToDevice, ips[..i], ips[i], entry);
        assert ips[..i] + [ips[i]] == ips[..i + 1];
        i := i + 1;
      }
      assert ips[..i] == ips;
    }

    /** Folds a flow-log or metadata row into the device it belongs to. */
    method MergeLocked(existing: Entry, incoming: Entry, legacy: string)
      requires Valid() && existing in idToDevice.Values && incoming !in idToDevice.Values
      requires incoming.id != ""
      requires Find(incoming.id).None? || Find(incoming.id) == Some(existing)
      modifies this`idToDevice, this`ipToDevice, this`aliases
      modifies existing`id, existing`nodeID, existing`ips, existing`flowSeen, existing`aliases
      ensures Valid() && idToDevice.Values == old(idToDevice.Values)
      ensures existing.id == PreferredID(old(existing.id), incoming.id)
      ensures Known() == Named(old(Known()), idToDevice.Keys, incoming.id, legacy, existing)
      ensures existing.nodeID == NodeIDOf(if old(existing.nodeID) == "" then incoming.nodeID else old(existing.nodeID),
              existing.id)
      ensures Took(old(ipToDevice), ipToDevice, (if existing.fromAPI then incoming.ips else []) + existing.ips,
              existing)
      ensures existing.ips == if existing.fromAPI then old(existing.ips) else Union(old(existing.ips), incoming.ips)
      ensures existing.flowSeen == Later(old(existing.flowSeen), incoming.flowSeen)
    {
      ghost var before := ipToDevice;
      MergeFields(existing, incoming);
      ghost var held := ipToDevice;
      IdentifyAs(existing, incoming.id, legacy);
      hide AliasesReach, AddressesOwned, Took, Union;
      MapIPs(existing.ips, existing);
      TookAlso(before, held, ipToDevice, if existing.fromAPI then incoming.ips else [], existing.ips, existing);
    }

    /** The field merge, and the addresses a device of the list keeps resolving. */
    method MergeFields(existing: Entry, incoming: Entry)
      requires Valid() && existing in idToDevice.Values && incoming != existing
      modifies this`ipToDevice, existing`nodeID, existing`ips, existing`flowSeen
      ensures Valid() && Took(old(ipToDevice), ipToDevice, if existing.fromAPI then incoming.ips else [], existing)
      ensures Known() == old(Known())
      ensures existing.nodeID == if old(existing.nodeID) == "" then incoming.nodeID else old(existing.nodeID)
      ensures existing.ips == if existing.fromAPI then old(existing.ips) else Union(old(existing.ips), incoming.ips)
      ensures existing.flowSeen == Later(old(existing.flowSeen), incoming.flowSeen)
    {
      if existing.nodeID == "" {
        existing.nodeID := incoming.nodeID;
      }
      if After(incoming.flowSeen, existing.flowSeen) {
        existing.flowSeen := incoming.flowSeen;
      }
      assert Valid();
      if !existing.fromAPI {
        GrowIPs(existing, incoming.ips);
        TookNothing(ipToDevice, existing);
      } else {
        hide AliasesReach, AddressesOwned;
        MapIPs(incoming.ips, existing);
      }
    }

    method GrowIPs(existing: Entry, ips: seq<string>)
      requires Valid() && existing in idToDevice.Values
      modifies existing`ips
      ensures Valid() && existing.ips == Union(old(existing.ips), ips)
    {
      existing.ips := Union(existing.ips, ips);
    }

    method IdentifyAs(existing: Entry, id: string, legacy: string)
      requires Valid() && existing in idToDevice.Values && id != ""
      requires Find(id).None? || Find(id) == Some(existing)
      modifies this`idToDevice, this`aliases, existing`id, existing`aliases, existing`nodeID
      ensures Valid() && idToDevice.Values == old(idToDevice.Values)
      ensures existing.id == PreferredID(old(existing.id), id)
      ensures Known() == Named(old(Known()), idToDevice.Keys, id, legacy, existing)
      ensures existing.nodeID == NodeIDOf(old(existing.nodeID), existing.id)
    {
      hide AliasesReach, AddressesOwned;
      TakePreferredID(existing, id);
      AliasBoth(existing, id, legacy);
    }

    method AliasBoth(existing: Entry, id: string, legacy: string)
      requires Valid() && existing in idToDevice.Values && id != ""
      requires id in idToDevice ==> idToDevice[id] == existing
      modifies this`aliases, existing`aliases
      ensures Valid() && Known() == Named(old(Known()), idToDevice.Keys, id, legacy, existing)
    {
      AliasLocked(id, existing.id, existing);
      AliasLocked(legacy, existing.id, existing);
    }

    method TakePreferredID(existing: Entry, id: string)
      requires Valid() && existing in idToDevice.Values && id != ""
      requires Find(id).None? || Find(id) == Some(existing)
      modifies this`idToDevice, this`aliases, existing`id, existing`aliases, existing`nodeID
      ensures Valid() && idToDevice.Values == old(idToDevice.Values)
      ensures existing.id == PreferredID(old(existing.id), id)
      ensures id in idToDevice ==> idToDevice[id] == existing
      ensures Known() == old(Known()) || Known() == old(Known())[id := existing]
      ensures existing.nodeID == NodeIDOf(old(existing.nodeID), existing.id)
    {
      hide AliasesReach, AddressesOwned, Redirected;
      var next := PreferredID(existing.id, id);
      if next != existing.id {
        RekeyLocked(existing, next);
      }
      FillNodeID(existing);
    }

    method FillNodeID(existing: Entry)
      requires Valid() && existing in idToDevice.Values
      modifies existing`nodeID
      ensures Valid() && Known() == old(Known())
      ensures existing.nodeID == NodeIDOf(old(existing.nodeID), existing.id)
    {
      if existing.nodeID == "" && IsStableNodeID(existing.id) {
        existing.nodeID := existing.id;
      }
    }

    /**
     adoptLocked: a row joins the device it is proved to belong to, or becomes
     one. Either way its id finds that device, and its legacy id does unless it
     is itself the id of another; every other id finds what it found before.
     */
    method AdoptLocked(incoming: Entry) returns (ghost joined: Entry)
      requires Valid() && incoming !in idToDevice.Values && incoming.id != "" && incoming.aliases == []
      requires !incoming.fromAPI
      modifies this`idToDevice, this`ipToDevice, this`aliases, incoming, idToDevice.Values
      ensures Valid()
      ensures idToDevice.Values == old(idToDevice.Values) + {joined}
      ensures joined == incoming || joined in old(idToDevice.Values)
      ensures old(Belongs(incoming, joined))
      ensures Known() == Named(old(Known()), idToDevice.Keys, old(incoming.id), old(incoming.legacyID), joined)
      ensures forall e :: e in old(idToDevice.Values) && e != joined ==>
              e.id == old(e.id) && e.nodeID == old(e.nodeID) && e.ips == old(e.ips) && e.fromAPI == old(e.fromAPI)
              && e.flowSeen == old(e.flowSeen) && e.apiLegacyID == old(e.apiLegacyID)
      ensures joined.id == if joined != incoming && IsStableNodeID(old(incoming.id)) && !IsStableNodeID(old(joined.id))
              then old(incoming.id) else old(joined.id)
      ensures joined.nodeID
           == NodeIDOf(if old(joined.nodeID) == "" then old(incoming.nodeID) else old(joined.nodeID), joined.id)
      ensures joined.ips == if joined == incoming || joined.fromAPI then old(joined.ips)
              else Union(old(joined.ips), old(incoming.ips))
      ensures joined.fromAPI == old(joined.fromAPI) && joined.apiLegacyID == old(joined.apiLegacyID)
      ensures joined.flowSeen == Later(old(joined.flowSeen), old(incoming.flowSeen))
      ensures incoming.legacyID == ""
      ensures Took(old(ipToDevice), ipToDevice, (if joined.fromAPI then old(incoming.ips) else []) + joined.ips, joined)
      ensures forall ip :: ip in old(OwnAddresses()) ==>
                ip in ipToDevice && ipToDevice[ip].fromAPI
                && (ip in ipToDevice[ip].ips <==> !(joined.fromAPI && ip in old(incoming.ips) && ip !in joined.ips))
    {
      hide *;
      ghost var rowIPs, before, owned := incoming.ips, ipToDevice, OwnAddresses();
      var legacy := incoming.legacyID;
      var existing := MatchLocked(incoming);
      incoming.legacyID := "";
      assert Valid();
      if existing.Some? {
        joined := existing.value;
        PreferredIs(joined.id, incoming.id);
        MergeLocked(existing.value, incoming, legacy);
      } else {
        joined := incoming;
        LaterOfOne(incoming.flowSeen);
        AddNew(incoming, legacy);
        assert joined.ips == [] + joined.ips;
      }
      OwnedTook(before, ipToDevice, owned, rowIPs, joined);
    }

    /** The addresses that map to a device of the device list whose own list holds them. */
    ghost function OwnAddresses(): (owned: set<string>)
      reads this, idToDevice.Values
      requires Valid()
      ensures forall ip :: ip in owned <==>
              ip != "" && ip in ipToDevice && ipToDevice[ip].fromAPI && ip in ipToDevice[ip].ips
    {
      set ip | ip in ipToDevice && ip != "" && ipToDevice[ip].fromAPI && ip in ipToDevice[ip].ips
    }

    method AddNew(incoming: Entry, legacy: string)
      requires Valid() && incoming !in idToDevice.Values && incoming.id != "" && incoming.aliases == []
      requires !incoming.fromAPI
      requires Find(incoming.id).None?
      modifies this`idToDevice, this`ipToDevice, this`aliases, incoming`nodeID, incoming`aliases
      ensures Valid() && idToDevice == old(idToDevice)[incoming.id := incoming]
      ensures idToDevice.Values == old(idToDevice.Values) + {incoming}
      ensures Known() == Named(old(Known()), idToDevice.Keys, incoming.id, legacy, incoming)
      ensures incoming.nodeID == NodeIDOf(old(incoming.nodeID), incoming.id)
      ensures Took(old(ipToDevice), ipToDevice, incoming.ips, incoming)
    {
      if incoming.nodeID == "" && IsStableNodeID(incoming.id) {
        incoming.nodeID := incoming.id;
      }
      hide AliasesReach, AddressesOwned, Took, KnownBy;
      PutDevice(incoming);
      AliasLocked(legacy, incoming.id, incoming);
      MapIPs(incoming.ips, incoming);
    }

    /** The stored row of a device with an empty address, into an empty cache. */
    method AdoptStored() returns (e: Entry)
      requires Valid() && idToDevice == map[] && ipToDevice == map[]
      modifies this`idToDevice, this`ipToDevice, this`aliases
      ensures Valid() && fresh(e) && idToDevice.Values == {e}
      ensures "" in ipToDevice && ipToDevice[""] == e && "100.64.0.1" in ipToDevice && ipToDevice["100.64.0.1"] == e
      ensures !e.fromAPI && e.flowSeen == Some(5) && e.ips == ["", "100.64.0.1"] && e.apiLegacyID == ""
    {
      e := new Entry("n1", "", ["", "100.64.0.1"], false, Some(5), "", "");
      hide AliasesReach, AddressesOwned, Conflict, Named, KnownBy, NodeIDOf, IsStableNodeID, Took, Union, Cleaned;
      ghost var joined := AdoptLocked(e);
      assert joined == e && e.ips == ["", "100.64.0.1"];
      TookAll(map[], ipToDevice, [] + e.ips, e);
      assert "" in e.ips && "100.64.0.1" in e.ips;
    }

    /** A later row of the same device, known by its other address. */
    method AdoptLater(e: Entry)
      requires Valid() && idToDevice.Values == {e} && isTailscaleIP("100.64.0.1")
      requires "" in ipToDevice && ipToDevice[""] == e && "100.64.0.1" in ipToDevice && ipToDevice["100.64.0.1"] == e
      requires !e.fromAPI && e.flowSeen == Some(5) && e.ips == ["", "100.64.0.1"] && e.apiLegacyID == ""
      modifies this`idToDevice, this`ipToDevice, this`aliases, e
      ensures Valid() && idToDevice.Values == {e} && "" in ipToDevice && ipToDevice[""] == e
      ensures !e.fromAPI && e.flowSeen == Some(6) && "" !in e.ips
    {
      var more := new Entry("n2", "", ["100.64.0.1"], false, Some(6), "", "");
      assert !Conflict(e, more) && more.ips[0] == "100.64.0.1";
      assert Hit(more, more.ips[0]) && !Belongs(more, more);
      hide *;
      ghost var held := ipToDevice;
      ghost var joined := AdoptLocked(more);
      assert joined == e;
      TookKeeps(held, ipToDevice, [] + e.ips, e, "");
    }

    /** Pruning the last holder of the empty address leaves the address behind. */
    method PruneHolder(e: Entry)
      requires Valid() && idToDevice.Values == {e} && "" in ipToDevice && ipToDevice[""] == e
      requires !e.fromAPI && e.flowSeen == Some(6) && "" !in e.ips
      modifies this`idToDevice, this`ipToDevice, this`aliases
      ensures Valid() && idToDevice == map[] && !EmptyAddressLive()
    {
      assert Goes(e, 10, Some(100));
      assert forall id :: id in idToDevice ==> idToDevice[id] in idToDevice.Values;
      assert EmptyAddressLive();
      hide AliasesReach, AddressesOwned;
      var _ := PruneFlowOnly(10, Some(100));
      assert idToDevice == map[];
    }

    method PutDevice(incoming: Entry)
      requires Valid() && incoming !in idToDevice.Values && incoming.id != ""
      requires incoming.id !in idToDevice && incoming.id !in aliases
      modifies this`idToDevice
      ensures Valid() && idToDevice == old(idToDevice)[incoming.id := incoming]
      ensures idToDevice.Values == old(idToDevice.Values) + {incoming}
      ensures Known() == old(Known())[incoming.id := incoming]
    {
      KnownPut(idToDevice, aliases, incoming.id, incoming);
      hide KnownBy;
      NewValue(idToDevice, incoming.id, incoming);
      idToDevice := idToDevice[incoming.id := incoming];
    }

    /**
     Update: the device list replaces everything. Each device has its own row;
     a legacy id that is no device id finds the last device that lists it, an
     address the last device that lists that, and there are no others.
     */
    method Update(devices: seq<Device>)
      requires ListedApart(devices) && !isTailscaleIP("")
      modifies this`idToDevice, this`ipToDevice, this`aliases
      ensures Valid() && EmptyAddressLive()
      ensures forall e :: e in idToDevice.Values ==> fresh(e) && e.fromAPI
      ensures forall ip :: ip in ipToDevice ==> ip in ipToDevice[ip].ips
      ensures idToDevice.Keys == IdsOf(devices)
      ensures forall i :: 0 <= i < |devices| && devices[i].id != "" ==> RowOf(devices[i], idToDevice[devices[i].id])
      ensures forall i :: LastNaming(devices, i) && devices[i].legacyID !in IdsOf(devices) ==>
                Find(devices[i].legacyID) == Some(idToDevice[devices[i].id])
      ensures forall a :: a in aliases ==> a in LegacyIdsOf(devices)
      ensures forall i, ip :: LastHolding(devices, i, ip) ==>
                ip in ipToDevice && ipToDevice[ip] == idToDevice[devices[i].id]
      ensures forall ip :: ip in ipToDevice ==> exists i :: LastHolding(devices, i, ip)
    {
      idToDevice, ipToDevice, aliases := map[], map[], map[];
      assert devices[..0] == [] && IdsOf([]) == {};
      var i := 0;
      while i < |devices|
        invariant 0 <= i <= |devices|
        invariant Valid() && fresh(idToDevice.Values) && AllListed()
        invariant Listed(devices[..i], idToDevice, ipToDevice, aliases)
      {
        hide *;
        if devices[i].id != "" {
          AddListed(devices, i);
        } else {
          ListedSkip(devices, i, idToDevice, ipToDevice, aliases);
        }
        i := i + 1;
      }
      assert devices[..i] == devices;
    }

    /** One round of the loop of Update. */
    method AddListed(devices: seq<Device>, i: nat)
      requires Valid() && AllListed() && ListedApart(devices) && i < |devices| && devices[i].id != ""
      requires Listed(devices[..i], idToDevice, ipToDevice, aliases)
      modifies this`idToDevice, this`ipToDevice, this`aliases
      ensures Valid() && AllListed() && fresh(idToDevice.Values - old(idToDevice.Values))
      ensures Listed(devices[..i + 1], idToDevice, ipToDevice, aliases)
    {
      hide *;
      ghost var ids, ips, als := idToDevice, ipToDevice, aliases;
      NotYetListed(devices, i);
      ListedIds(devices[..i], ids, ips, als);
      AddDevice(devices[i]);
      ListedMore(devices, i, ids, ips, als, idToDevice, ipToDevice, aliases);
    }

    /** Every device is of the device list, and every address maps to one that lists it. */
    ghost predicate AllListed()
      reads this, idToDevice.Values, ipToDevice.Values
    {
      && (forall e :: e in idToDevice.Values ==> e.fromAPI)
      && (forall ip :: ip in ipToDevice ==> ip in ipToDevice[ip].ips)
      && EmptyAddressLive()
    }

    lemma OthersListed()
      requires AllListed()
      ensures forall e :: e in idToDevice.Values ==> e.fromAPI
      ensures forall ip :: ip in ipToDevice ==> ip in ipToDevice[ip].ips
      ensures "" in ipToDevice ==> ipToDevice[""] in idToDevice.Values
    {
    }

    lemma StillListed(ids: map<string, Entry>, ips: map<string, Entry>, entry: Entry)
      requires entry.fromAPI && idToDevice.Values == ids.Values + {entry}
      requires forall e :: e in ids.Values ==> e.fromAPI
      requires forall ip :: ip in ips ==> ip in ips[ip].ips
      requires "" in ips ==> ips[""] in ids.Values
      requires Took(ips, ipToDevice, entry.ips, entry)
      ensures AllListed() && forall ip :: ip in ipToDevice <==> ip in ips || ip in entry.ips
      ensures forall ip :: ip in ipToDevice ==> ipToDevice[ip] == if ip in entry.ips then entry else ips[ip]
    {
    }

    /** One row of the device list. */
    method AddDevice(d: Device)
      requires Valid() && d.id != "" && d.id !in idToDevice && d.id !in aliases
      requires AllListed()
      modifies this`idToDevice, this`ipToDevice, this`aliases
      ensures Valid() && AllListed() && d.id in idToDevice && fresh(idToDevice[d.id])
      ensures idToDevice == old(idToDevice)[d.id := idToDevice[d.id]]
      ensures idToDevice.Values == old(idToDevice.Values) + {idToDevice[d.id]} && RowOf(d, idToDevice[d.id])
      ensures aliases == if d.legacyID == "" || d.legacyID in idToDevice then old(aliases)
              else old(aliases)[d.legacyID := d.id]
      ensures forall ip :: ip in ipToDevice <==> ip in old(ipToDevice) || ip in d.addresses
      ensures forall ip :: ip in ipToDevice ==>
                ipToDevice[ip] == if ip in d.addresses then idToDevice[d.id] else old(ipToDevice)[ip]
    {
      var nodeID := if d.nodeID == "" && IsStableNodeID(d.id) then d.id else d.nodeID;
      var entry := new Entry(d.id, nodeID, d.addresses, true, None, "", d.legacyID);
      hide AliasesReach, AddressesOwned, AllListed, Took, KnownBy;
      ghost var ids, ips := idToDevice, ipToDevice;
      OthersListed();
      PutApi(entry);
      AliasLocked(d.legacyID, d.id, entry);
      MapIPs(d.addresses, entry);
      StillListed(ids, ips, entry);
    }

    method PutApi(entry: Entry)
      requires Valid() && entry !in idToDevice.Values && entry.id != "" && entry.fromAPI
      requires entry.id !in idToDevice && entry.id !in aliases
      modifies this`idToDevice
      ensures Valid() && idToDevice == old(idToDevice)[entry.id := entry]
      ensures idToDevice.Values == old(idToDevice.Values) + {entry}
    {
      NewValue(idToDevice, entry.id, entry);
      idToDevice := idToDevice[entry.id := entry];
    }

    /**
     Drops flow-only devices last seen before the cutoff; a device never seen in
     a flow stays. Their aliases go with them, and the addresses they list and
     hold; everything else stays.
     */
    method PruneFlowOnly(retention: int, now: Option<int>) returns (removed: nat)
      requires Valid()
      modifies this`idToDevice, this`ipToDevice, this`aliases
      ensures Valid()
      ensures idToDevice == map id | id in old(idToDevice) && !Goes(old(idToDevice)[id], retention, now)
                  :: old(idToDevice)[id]
      ensures aliases == KeptAliases(old(aliases), idToDevice.Keys)
      ensures ipToDevice == KeptIPs(old(ipToDevice), set e | e in old(idToDevice.Values) && Goes(e, retention, now))
      ensures removed == |old(idToDevice)| - |idToDevice|
      ensures ApiIn(ipToDevice) == old(ApiIn(ipToDevice))
      ensures Within(ipToDevice, old(ipToDevice))
      ensures old(EmptyAddressLive()) ==>
                (EmptyAddressLive() <==>
                 !("" in old(ipToDevice) && Goes(old(ipToDevice)[""], retention, now)
                   && "" !in old(ipToDevice)[""].ips))
    {
      hide *;
      removed := 0;
      var left: set<string> := {};
      var cutoff := 0;
      if retention > 0 && now.Some? {
        cutoff := now.value - retention;
        left := idToDevice.Keys;
      }
      ghost var all, ips, als := idToDevice, ipToDevice, aliases;
      SoundIsValid();
      PruningStarts(retention, now);
      while left != {}
        invariant Valid() && Pruning(all, ips, als, idToDevice, ipToDevice, aliases, left, retention, now)
        invariant left != {} ==> retention > 0 && now.Some? && cutoff == now.value - retention
        invariant removed == |all| - |idToDevice|
        decreases left
      {
        assert exists id :: id in left;
        var id :| id in left;
        var gone := PruneOne(id, cutoff, all, ips, als, left, retention, now);
        left := left - {id};
        removed := removed + gone;
      }
      PruningEnds(all, ips, als, idToDevice, ipToDevice, aliases, retention, now);
      SoundIsValid();
    }

    lemma PruningStarts(retention: int, now: Option<int>)
      requires Valid()
      ensures Pruning(idToDevice, ipToDevice, aliases, idToDevice, ipToDevice, aliases,
                      if retention > 0 && now.Some? then idToDevice.Keys else {}, retention, now)
    {
      OneIdEach();
      assert KeptIPs(ipToDevice, {}) == ipToDevice;
      assert idToDevice.Values - idToDevice.Values == {};
    }

    /** One round of the prune loop. */
    method PruneOne(id: string, cutoff: int, ghost all: map<string, Entry>, ghost ips: map<string, Entry>,
                    ghost als: map<string, string>, ghost left: set<string>, ghost retention: int,
                    ghost now: Option<int>)
      returns (gone: nat)
      requires Valid() && Pruning(all, ips, als, idToDevice, ipToDevice, aliases, left, retention, now) && id in left
      requires retention > 0 && now.Some? && cutoff == now.value - retention
      modifies this`idToDevice, this`ipToDevice, this`aliases
      ensures Valid() && Pruning(all, ips, als, idToDevice, ipToDevice, aliases, left - {id}, retention, now)
      ensures gone == |old(idToDevice)| - |idToDevice|
    {
      hide *;
      gone := 0;
      PruningNext(all, ips, als, idToDevice, ipToDevice, aliases, left, id, retention, now);
      var e := idToDevice[id];
      GoesIs(e, retention, now);
      if !e.fromAPI && e.flowSeen.Some? && e.flowSeen.value < cutoff {
        OneFewer(idToDevice, id);
        RemoveLocked(id);
        gone := 1;
      }
    }

    /** removeLocked for a flow-only device: it, its aliases and its addresses go, nothing else. */
    method RemoveLocked(id: string)
      requires Valid() && id in idToDevice && !idToDevice[id].fromAPI
      modifies this`idToDevice, this`ipToDevice, this`aliases
      ensures Valid() && idToDevice == old(idToDevice) - {id}
      ensures aliases == Unaliased(old(aliases), id)
      ensures ipToDevice == Unmapped(old(ipToDevice), old(idToDevice)[id])
      ensures old(EmptyAddressLive()) ==>
                (EmptyAddressLive() <==>
                 !("" in old(ipToDevice) && old(ipToDevice)[""] == old(idToDevice)[id]
                     && "" !in old(idToDevice)[id].ips))
    {
      hide *;
      ghost var ids, ips, als, live := idToDevice, ipToDevice, aliases, EmptyAddressLive();
      SoundIsValid();
      var entry := idToDevice[id];
      RemovedSound(ids, ips, als, id);
      var keptAliases := DropAliases(aliases - {id}, entry.aliases, id);
      var keptIPs := DropIPs(ipToDevice, entry.ips, entry);
      UnmappedIs(ips, keptIPs, entry);
      DroppedAre(als, keptAliases, entry.aliases, id);
      idToDevice := idToDevice - {id};
      aliases := keptAliases;
      ipToDevice := keptIPs;
      SoundIsValid();
    }

    lemma SoundIsValid()
      ensures Valid() <==> Sound(idToDevice, ipToDevice, aliases) && !isTailscaleIP("")
      ensures EmptyAddressLive() <==> ("" in ipToDevice ==> ipToDevice[""] in idToDevice.Values)
    {
    }

    /** The ids of one device: its canonical id and the aliases that reach it. */
    ghost function IdsFor(e: Entry): set<string>
      reads this, e
    {
      {e.id} + set a | a in aliases && aliases[a] == e.id
    }

    /** EquivalentIDs: the canonical id, then the aliases that reach it in order. */
    method EquivalentIDs(id: string) returns (ids: seq<string>)
      requires Valid()
      ensures id == "" ==> ids == []
      ensures id != "" && Find(id).None? ==> ids == [id]
      ensures Find(id).Some? ==>
                ids != [] && ids[0] == Find(id).value.id && SortedStrings(ids[1..])
                && forall x :: x in ids <==> x in IdsFor(Find(id).value)
      ensures forall i, j :: 0 <= i < j < |ids| ==> ids[i] != ids[j]
    {
      hide SortedStrings;
      if id == "" {
        return [];
      }
      var found := Find(id);
      if found.None? {
        return [id];
      }
      var entry := found.value;
      var extras := AliasesOf(entry);
      var sorted := SortStrings(extras);
      SortedIsSame(extras, sorted);
      ids := [entry.id] + sorted;
      assert ids[1..] == sorted;
    }

    /** The aliases of a device's list that still reach it, once each. */
    method AliasesOf(entry: Entry) returns (extras: seq<string>)
      requires Valid() && entry in idToDevice.Values
      ensures forall x :: x in extras <==> x in aliases && aliases[x] == entry.id
      ensures entry.id !in extras && forall i, j :: 0 <= i < j < |extras| ==> extras[i] != extras[j]
    {
      AliasesListed(entry);
      extras := [];
      var i := 0;
      while i < |entry.aliases|
        invariant 0 <= i <= |entry.aliases|
        invariant forall x :: x in extras <==> x in entry.aliases[..i] && x in aliases && aliases[x] == entry.id
        invariant entry.id !in extras && forall i, j :: 0 <= i < j < |extras| ==> extras[i] != extras[j]
      {
        var alias := entry.aliases[i];
        assert entry.aliases[..i + 1] == entry.aliases[..i] + [alias];
        if alias != entry.id && alias in aliases && aliases[alias] == entry.id && alias !in extras {
          extras := extras + [alias];
        }
        i := i + 1;
      }
      assert entry.aliases[..i] == entry.aliases;
    }

    /** Every member of a device's ids finds that device, so EquivalentIDs answers the same set for each. */
    lemma EquivalentIDsAgree(e: Entry, id: string)
      requires Valid() && e in idToDevice.Values
      ensures id in IdsFor(e) <==> id != "" && Find(id) == Some(e)
    {
      var k :| k in idToDevice && idToDevice[k] == e;
      OneIdEach();
    }

    lemma OneIdEach()
      requires Valid()
      ensures forall i, j :: i in idToDevice && j in idToDevice && idToDevice[i] == idToDevice[j] ==> i == j
    {
    }
  }

  /**
   Whether an address goes to entry: from anyone when it is of the device list;
   otherwise from no device of the list, and from no other seen later.
   */
  predicate Yields(before: map<string, Entry>, ip: string, entry: Entry)
    reads entry, before.Values
  {
    ip !in before || before[ip] == entry || entry.fromAPI
    || (!before[ip].fromAPI
        && (before[ip].flowSeen.None?
            || (entry.flowSeen.Some? && entry.flowSeen.value >= before[ip].flowSeen.value)))
  }

  /** Each of the addresses that yields maps to entry, and nothing else moves. */
  ghost predicate Took(before: map<string, Entry>, after: map<string, Entry>, ips: seq<string>, entry: Entry)
    reads entry, before.Values
  {
    && (forall ip :: ip in after <==> ip in before || ip in ips)
    && forall ip :: ip in after ==>
         after[ip] == if ip in ips && Yields(before, ip, entry) then entry else before[ip]
  }

  /** The addresses that map to devices of the device list. */
  ghost function ApiIn(ips: map<string, Entry>): set<string>
    reads ips.Values
  {
    set ip | ip in ips && ips[ip].fromAPI
  }

  lemma TookAlso(a: map<string, Entry>, b: map<string, Entry>, c: map<string, Entry>, x: seq<string>, y: seq<string>,
                 entry: Entry)
    requires Took(a, b, x, entry) && Took(b, c, y, entry)
    ensures Took(a, c, x + y, entry)
  {
  }

  /** An owned address stays owned exactly unless a listed device without it takes it from the row. */
  lemma OwnedTook(before: map<string, Entry>, after: map<string, Entry>, owned: set<string>, rowIPs: seq<string>,
                  joined: Entry)
    requires Took(before, after, (if joined.fromAPI then rowIPs else []) + joined.ips, joined)
    requires forall ip :: ip in owned ==> ip in before && before[ip].fromAPI && ip in before[ip].ips
    ensures forall ip :: ip in owned ==>
              ip in after && after[ip].fromAPI
              && (ip in after[ip].ips <==> !(joined.fromAPI && ip in rowIPs && ip !in joined.ips))
  {
  }

  lemma TookAll(before: map<string, Entry>, after: map<string, Entry>, ips: seq<string>, entry: Entry)
    requires Took(before, after, ips, entry)
    ensures forall ip :: ip in ips && ip !in before ==> ip in after && after[ip] == entry
  {
  }

  lemma TookKeeps(before: map<string, Entry>, after: map<string, Entry>, ips: seq<string>, entry: Entry, ip: string)
    requires Took(before, after, ips, entry) && ip in before && before[ip] == entry
    ensures ip in after && after[ip] == entry
  {
  }

  lemma TookNothing(before: map<string, Entry>, entry: Entry)
    ensures Took(before, before, [], entry)
  {
  }

  lemma TookMore(a: map<string, Entry>, b: map<string, Entry>, c: map<string, Entry>, ips: seq<string>, ip: string,
                 entry: Entry)
    requires Took(a, b, ips, entry) && Took(b, c, [ip], entry)
    ensures Took(a, c, ips + [ip], entry)
  {
  }

  /** What ids find, by canonical id or alias. */
  function KnownBy(ids: map<string, Entry>, als: map<string, string>): map<string, Entry>
    requires forall a :: a in als ==> als[a] in ids
  {
    map id | id in ids.Keys + als.Keys :: if id in ids then ids[id] else ids[als[id]]
  }

  lemma KnownRedirected(ids: map<string, Entry>, als: map<string, string>, oldID: string, newID: string, entry: Entry)
    requires oldID in ids && ids[oldID] == entry && newID !in ids
    requires forall a :: a in als ==> a !in ids && als[a] in ids
    ensures var ids', als' := (ids - {oldID})[newID := entry], Redirected(als, oldID, newID);
            && (forall a :: a in als' ==> als'[a] in ids')
            && KnownBy(ids', als') == KnownBy(ids, als)[newID := entry]
  {
    var ids', als' := (ids - {oldID})[newID := entry], Redirected(als, oldID, newID);
    forall a | a in als'
      ensures als'[a] in ids'
    {
    }
    var l, r := KnownBy(ids', als'), KnownBy(ids, als)[newID := entry];
    forall id
      ensures id in l <==> id in r
      ensures id in l ==> l[id] == r[id]
    {
    }
    assert l.Keys == r.Keys;
  }

  lemma KnownPut(ids: map<string, Entry>, als: map<string, string>, id: string, entry: Entry)
    requires id !in als && forall a :: a in als ==> als[a] in ids && als[a] != id
    ensures KnownBy(ids[id := entry], als) == KnownBy(ids, als)[id := entry]
  {
  }

  lemma PreferredIs(current: string, incoming: string)
    ensures PreferredID(current, incoming)
         == if IsStableNodeID(incoming) && !IsStableNodeID(current) then incoming else current
  {
  }

  /** An empty node id is filled by an id that is stable. */
  function NodeIDOf(nodeID: string, id: string): string {
    if nodeID == "" && IsStableNodeID(id) then id else nodeID
  }

  /** What ids find after a row with an id and a legacy id joined a device: a legacy id that is a device id stays. */
  function Named(known: map<string, Entry>, ids: set<string>, id: string, legacy: string, joined: Entry):
    map<string, Entry>
  {
    var now := known[id := joined];
    if legacy == "" || legacy in ids then now else now[legacy := joined]
  }

  /** The stable id an entry is known to have. */
  function StableOf(e: Entry): string
    reads e
  {
    NodeIDOf(e.nodeID, e.id)
  }

  /** id proves that a node is not this entry. */
  predicate Refutes(e: Entry, id: string)
    reads e
  {
    id != ""
    && if IsStableNodeID(id) then StableOf(e) != "" && StableOf(e) != id
       else e.apiLegacyID != "" && e.apiLegacyID != id
  }

  /**
   As far as is known an id may name a device: a stable id one whose own stable
   id is the same or unknown, any other id one for which the device list gave
   the same legacy id or none.
   */
  predicate MayBe(e: Entry, id: string)
    reads e
  {
    || id == ""
    || (IsStableNodeID(id) && (e.nodeID == id || (e.nodeID == "" && (e.id == id || !IsStableNodeID(e.id)))))
    || (!IsStableNodeID(id) && (e.apiLegacyID == "" || e.apiLegacyID == id))
  }

  /** identitiesConflict finds exactly the devices that one of the ids cannot name. */
  lemma ConflictIsExact(existing: Entry, incoming: Entry)
    ensures Conflict(existing, incoming) <==> !MayBe(existing, incoming.id) || !MayBe(existing, incoming.legacyID)
  {
  }

  /** identitiesConflict */
  predicate Conflict(existing: Entry, incoming: Entry)
    reads existing, incoming
  {
    Refutes(existing, incoming.id) || Refutes(existing, incoming.legacyID)
  }

  /** The rows with an id have different ids, and no row's id is the legacy id of an earlier one. */
  ghost predicate ListedApart(devices: seq<Device>) {
    forall i, j :: 0 <= i < j < |devices| && devices[j].id != "" ==>
      devices[i].id != devices[j].id && (devices[i].id == "" || devices[i].legacyID != devices[j].id)
  }

  function IdsOf(devices: seq<Device>): set<string> {
    set i | 0 <= i < |devices| && devices[i].id != "" :: devices[i].id
  }

  /** An entry as Update makes it from a row of the device list. */
  predicate RowOf(d: Device, e: Entry)
    reads e
  {
    && e.id == d.id && e.ips == d.addresses && e.fromAPI && e.flowSeen == None
    && e.legacyID == "" && e.apiLegacyID == d.legacyID
    && e.nodeID == if d.nodeID == "" && |d.id| >= 8 && d.id[|d.id| - 5..] == "CNTRL" then d.id else d.nodeID
  }

  /** The last row with an id that names its legacy id. */
  ghost predicate LastNaming(devices: seq<Device>, i: int) {
    0 <= i < |devices| && devices[i].id != "" && devices[i].legacyID != ""
    && forall j :: i < j < |devices| && devices[j].id != "" ==> devices[j].legacyID != devices[i].legacyID
  }

  /** The last row with an id that lists an address. */
  ghost predicate LastHolding(devices: seq<Device>, i: int, ip: string) {
    0 <= i < |devices| && devices[i].id != "" && ip in devices[i].addresses
    && forall j :: i < j < |devices| && devices[j].id != "" ==> ip !in devices[j].addresses
  }

  /** The three tables after the rows of a device list. */
  ghost predicate Listed(devices: seq<Device>, ids: map<string, Entry>, ips: map<string, Entry>,
                         als: map<string, string>)
    reads ids.Values
  {
    && ids.Keys == IdsOf(devices)
    && (forall i :: 0 <= i < |devices| && devices[i].id != "" ==> RowOf(devices[i], ids[devices[i].id]))
    && Aliased(devices, als) && Held(devices, ids, ips)
  }

  /** Legacy ids that are no device ids are aliases of the last row that names them, and nothing else is. */
  ghost predicate Aliased(devices: seq<Device>, als: map<string, string>) {
    && (forall i :: LastNaming(devices, i) && devices[i].legacyID !in IdsOf(devices) ==>
          devices[i].legacyID in als && als[devices[i].legacyID] == devices[i].id)
    && forall a :: a in als ==> a in LegacyIdsOf(devices)
  }

  /** Every listed address maps to the last device that lists it. */
  ghost predicate Held(devices: seq<Device>, ids: map<string, Entry>, ips: map<string, Entry>) {
    && (forall i, ip :: LastHolding(devices, i, ip) ==>
          devices[i].id in ids && ip in ips && ips[ip] == ids[devices[i].id])
    && forall ip :: ip in ips ==> exists i :: LastHolding(devices, i, ip)
  }

  lemma ListedIds(devices: seq<Device>, ids: map<string, Entry>, ips: map<string, Entry>, als: map<string, string>)
    requires Listed(devices, ids, ips, als)
    ensures ids.Keys == IdsOf(devices) && forall a :: a in als ==> a in LegacyIdsOf(devices)
  {
  }

  /** A row without an id is skipped. */
  lemma ListedSkip(devices: seq<Device>, n: nat, ids: map<string, Entry>, ips: map<string, Entry>,
                   als: map<string, string>)
    requires n < |devices| && devices[n].id == "" && Listed(devices[..n], ids, ips, als)
    ensures Listed(devices[..n + 1], ids, ips, als)
  {
    hide RowOf, Aliased, Held, IdsOf, LegacyIdsOf;
    var front, now := devices[..n], devices[..n + 1];
    IdsGrow(devices, n);
    AliasedSkip(devices, n, als);
    HeldSkip(devices, n, ids, ips);
    forall i | 0 <= i < |now| && now[i].id != ""
      ensures now[i].id in ids && RowOf(now[i], ids[now[i].id])
    {
      assert i < n && now[i] == front[i];
      IdIn(front, i);
    }
  }

  lemma IdIn(devices: seq<Device>, i: nat)
    requires i < |devices| && devices[i].id != ""
    ensures devices[i].id in IdsOf(devices)
  {
  }

  lemma AliasedSkip(devices: seq<Device>, n: nat, als: map<string, string>)
    requires n < |devices| && devices[n].id == "" && Aliased(devices[..n], als)
    ensures Aliased(devices[..n + 1], als)
  {
    var front, now := devices[..n], devices[..n + 1];
    IdsGrow(devices, n);
    LastSkip(devices, n);
    hide LastNaming, IdsOf, LegacyIdsOf;
    forall i | LastNaming(now, i) && now[i].legacyID !in IdsOf(now)
      ensures now[i].legacyID in als && als[now[i].legacyID] == now[i].id
    {
      NamingIn(front, i);
      assert now[i] == front[i];
    }
  }

  lemma HeldSkip(devices: seq<Device>, n: nat, ids: map<string, Entry>, ips: map<string, Entry>)
    requires n < |devices| && devices[n].id == "" && Held(devices[..n], ids, ips)
    ensures Held(devices[..n + 1], ids, ips)
  {
    var front, now := devices[..n], devices[..n + 1];
    LastSkip(devices, n);
    hide LastHolding;
    forall i, ip | LastHolding(now, i, ip)
      ensures now[i].id in ids && ip in ips && ips[ip] == ids[now[i].id]
    {
      HoldingIn(front, i, ip);
      assert now[i] == front[i];
    }
    forall ip | ip in ips
      ensures exists i :: LastHolding(now, i, ip)
    {
      var i :| LastHolding(front, i, ip);
      assert LastHolding(now, i, ip);
    }
  }

  lemma NamingIn(devices: seq<Device>, i: int)
    requires LastNaming(devices, i)
    ensures 0 <= i < |devices|
  {
  }

  lemma HoldingIn(devices: seq<Device>, i: int, ip: string)
    requires LastHolding(devices, i, ip)
    ensures 0 <= i < |devices|
  {
  }

  lemma LastSkip(devices: seq<Device>, n: nat)
    requires n < |devices| && devices[n].id == ""
    ensures forall i :: LastNaming(devices[..n + 1], i) <==> LastNaming(devices[..n], i)
    ensures forall i, ip :: LastHolding(devices[..n + 1], i, ip) <==> LastHolding(devices[..n], i, ip)
  {
    assert forall i :: 0 <= i < n ==> devices[..n + 1][i] == devices[..n][i];
  }

  /** With one more row, the last one is the last to name its legacy id and to list its addresses. */
  lemma LastMore(devices: seq<Device>, n: nat)
    requires n < |devices| && devices[n].id != ""
    ensures forall i :: LastNaming(devices[..n + 1], i) <==>
              if i == n then devices[n].legacyID != ""
              else LastNaming(devices[..n], i) && devices[i].legacyID != devices[n].legacyID
    ensures forall i, ip :: LastHolding(devices[..n + 1], i, ip) <==>
              if i == n then ip in devices[n].addresses
              else LastHolding(devices[..n], i, ip) && ip !in devices[n].addresses
  {
    var front, now := devices[..n], devices[..n + 1];
    assert forall i :: 0 <= i < n ==> now[i] == front[i] == devices[i];
    assert now[n] == devices[n];
    forall i, ip
      ensures LastHolding(now, i, ip) <==>
              if i == n then ip in devices[n].addresses
              else LastHolding(front, i, ip) && ip !in devices[n].addresses
    {
      if 0 <= i < n && LastHolding(now, i, ip) {
        forall j | i < j < n && front[j].id != ""
          ensures ip !in front[j].addresses
        {
          assert now[j] == front[j];
        }
        assert now[n].id != "" && ip !in now[n].addresses;
      }
    }
  }

  lemma ListedMore(devices: seq<Device>, n: nat,
                   ids: map<string, Entry>, ips: map<string, Entry>, als: map<string, string>,
                   ids': map<string, Entry>, ips': map<string, Entry>, als': map<string, string>)
    requires n < |devices| && devices[n].id != "" && ListedApart(devices) && Listed(devices[..n], ids, ips, als)
    requires devices[n].id in ids' && ids' == ids[devices[n].id := ids'[devices[n].id]]
    requires RowOf(devices[n], ids'[devices[n].id])
    requires als' == if devices[n].legacyID == "" || devices[n].legacyID in ids' then als
                     else als[devices[n].legacyID := devices[n].id]
    requires forall ip :: ip in ips' <==> ip in ips || ip in devices[n].addresses
    requires forall ip :: ip in ips' ==>
               ips'[ip] == if ip in devices[n].addresses then ids'[devices[n].id] else ips[ip]
    ensures Listed(devices[..n + 1], ids', ips', als')
  {
    hide RowOf, Aliased, Held, IdsOf, LegacyIdsOf, ListedApart;
    var front, now := devices[..n], devices[..n + 1];
    IdsGrow(devices, n);
    NotYetListed(devices, n);
    AliasedMore(devices, n, ids', als, als');
    HeldMore(devices, n, ids, ips, ids', ips');
    forall i | 0 <= i < |now| && now[i].id != ""
      ensures now[i].id in ids' && RowOf(now[i], ids'[now[i].id])
    {
      if i < n {
        assert now[i] == front[i];
        IdIn(front, i);
      }
    }
  }

  lemma AliasedMore(devices: seq<Device>, n: nat, ids': map<string, Entry>, als: map<string, string>,
                    als': map<string, string>)
    requires n < |devices| && devices[n].id != "" && ListedApart(devices) && Aliased(devices[..n], als)
    requires ids'.Keys == IdsOf(devices[..n + 1])
    requires als' == if devices[n].legacyID == "" || devices[n].legacyID in ids' then als
                     else als[devices[n].legacyID := devices[n].id]
    ensures Aliased(devices[..n + 1], als')
  {
    IdsGrow(devices, n);
    LastMore(devices, n);
    NotYetListed(devices, n);
    hide LastNaming, LastHolding, IdsOf, LegacyIdsOf;
    var now := devices[..n + 1];
    assert forall i :: 0 <= i < n ==> now[i] == devices[..n][i];
    forall i | LastNaming(now, i) && now[i].legacyID !in IdsOf(now)
      ensures now[i].legacyID in als' && als'[now[i].legacyID] == now[i].id
    {
    }
  }

  lemma HeldMore(devices: seq<Device>, n: nat, ids: map<string, Entry>, ips: map<string, Entry>,
                 ids': map<string, Entry>, ips': map<string, Entry>)
    requires n < |devices| && devices[n].id != "" && ListedApart(devices) && Held(devices[..n], ids, ips)
    requires ids.Keys == IdsOf(devices[..n])
    requires devices[n].id in ids' && ids' == ids[devices[n].id := ids'[devices[n].id]]
    requires forall ip :: ip in ips' <==> ip in ips || ip in devices[n].addresses
    requires forall ip :: ip in ips' ==>
               ips'[ip] == if ip in devices[n].addresses then ids'[devices[n].id] else ips[ip]
    ensures Held(devices[..n + 1], ids', ips')
  {
    NotYetListed(devices, n);
    LastMore(devices, n);
    var now := devices[..n + 1];
    assert forall i :: 0 <= i < n ==> now[i] == devices[..n][i];
    forall i, ip | LastHolding(now, i, ip)
      ensures now[i].id in ids' && ip in ips' && ips'[ip] == ids'[now[i].id]
    {
      if i < n {
        assert LastHolding(devices[..n], i, ip);
        assert devices[..n][i].id in IdsOf(devices[..n]);
      }
    }
    forall ip | ip in ips'
      ensures exists i :: LastHolding(now, i, ip)
    {
      if ip in devices[n].addresses {
        assert LastHolding(now, n, ip);
      } else {
        var i :| LastHolding(devices[..n], i, ip);
        assert LastHolding(now, i, ip);
      }
    }
  }

  function LegacyIdsOf(devices: seq<Device>): set<string> {
    set i | 0 <= i < |devices| && devices[i].id != "" :: devices[i].legacyID
  }

  lemma IdsGrow(devices: seq<Device>, i: nat)
    requires i < |devices|
    ensures IdsOf(devices[..i + 1]) == IdsOf(devices[..i]) + if devices[i].id != "" then {devices[i].id} else {}
    ensures LegacyIdsOf(devices[..i + 1]) == LegacyIdsOf(devices[..i]) +
            if devices[i].id != "" then {devices[i].legacyID} else {}
  {
    var a, b := devices[..i], devices[..i + 1];
    assert b == a + [devices[i]];
    assert b[i] == devices[i];
    assert forall j :: 0 <= j < i ==> b[j] == a[j];
  }

  lemma NotYetListed(devices: seq<Device>, i: nat)
    requires i < |devices| && devices[i].id != "" && ListedApart(devices)
    ensures devices[i].id !in IdsOf(devices[..i]) && devices[i].id !in LegacyIdsOf(devices[..i])
  {
  }

  /** The addresses without those an entry lists and holds. */
  function Unmapped(ips: map<string, Entry>, entry: Entry): map<string, Entry>
    reads entry
  {
    map ip | ip in ips && !(ips[ip] == entry && ip in entry.ips) :: ips[ip]
  }

  /** The devices in left are still to be looked at; of the others the expired ones are gone. */
  ghost predicate PrunedSoFar(all: map<string, Entry>, ids: map<string, Entry>, left: set<string>, retention: int,
                              now: Option<int>)
    reads all.Values
  {
    && left <= ids.Keys <= all.Keys && (forall id :: id in ids ==> ids[id] == all[id])
    && forall id :: id in all ==> (id in ids <==> id in left || !Goes(all[id], retention, now))
  }

  /** The addresses without those that gone devices list and hold. */
  function KeptIPs(ips: map<string, Entry>, gone: set<Entry>): map<string, Entry>
    reads ips.Values
  {
    map ip | ip in ips && !(ips[ip] in gone && ip in ips[ip].ips) :: ips[ip]
  }

  /** The aliases of the devices that are left. */
  function KeptAliases(als: map<string, string>, ids: set<string>): map<string, string> {
    map a | a in als && als[a] in ids :: als[a]
  }

  function Unaliased(als: map<string, string>, id: string): map<string, string> {
    map a | a in als && als[a] != id :: als[a]
  }

  /** What the prune loop keeps of the tables all, ips and als that it started from. */
  ghost predicate Pruning(all: map<string, Entry>, ips: map<string, Entry>, als: map<string, string>,
                          ids: map<string, Entry>, ips': map<string, Entry>, als': map<string, string>,
                          left: set<string>, retention: int, now: Option<int>)
    reads all.Values, ips.Values
  {
    && PrunedSoFar(all, ids, left, retention, now)
    && ips' == KeptIPs(ips, all.Values - ids.Values) && als' == KeptAliases(als, ids.Keys)
    && (forall i, j :: i in all && j in all && all[i] == all[j] ==> i == j)
  }

  lemma PruningNext(all: map<string, Entry>, ips: map<string, Entry>, als: map<string, string>,
                    ids: map<string, Entry>, ips': map<string, Entry>, als': map<string, string>,
                    left: set<string>, id: string, retention: int, now: Option<int>)
    requires Pruning(all, ips, als, ids, ips', als', left, retention, now) && id in left
    ensures id in ids
    ensures !Goes(ids[id], retention, now) ==> Pruning(all, ips, als, ids, ips', als', left - {id}, retention, now)
    ensures Goes(ids[id], retention, now) ==>
              !ids[id].fromAPI
              && Pruning(all, ips, als, ids - {id}, Unmapped(ips', ids[id]), Unaliased(als', id), left - {id},
                         retention, now)
  {
    PruneNext(all, ids, left, id, retention, now);
    assert forall i :: i in ids ==> i in all && ids[i] == all[i];
    assert Goes(ids[id], retention, now) ==> !ids[id].fromAPI;
    hide PrunedSoFar, Goes;
    OthersLive(ids, id);
    assert all.Values - (ids - {id}).Values == all.Values - ids.Values + {ids[id]};
    assert KeptAliases(als, (ids - {id}).Keys) == Unaliased(KeptAliases(als, ids.Keys), id);
    assert KeptIPs(ips, all.Values - ids.Values + {ids[id]})
        == Unmapped(KeptIPs(ips, all.Values - ids.Values), ids[id]);
  }

  lemma PruningEnds(all: map<string, Entry>, ips: map<string, Entry>, als: map<string, string>,
                    ids: map<string, Entry>, ips': map<string, Entry>, als': map<string, string>, retention: int,
                    now: Option<int>)
    requires Pruning(all, ips, als, ids, ips', als', {}, retention, now)
    ensures ids == map id | id in all && !Goes(all[id], retention, now) :: all[id]
    ensures als' == KeptAliases(als, ids.Keys)
    ensures ips' == KeptIPs(ips, set e | e in all.Values && Goes(e, retention, now))
    ensures ApiIn(ips') == ApiIn(ips) && Within(ips', ips)
    ensures ("" in ips ==> ips[""] in all.Values) ==>
              (("" in ips' ==> ips'[""] in ids.Values) <==>
                  !("" in ips && Goes(ips[""], retention, now) && "" !in ips[""].ips))
  {
    assert ids == map id | id in all && !Goes(all[id], retention, now) :: all[id];
    assert forall e :: e in all.Values && Goes(e, retention, now) ==> !e.fromAPI;
    hide Goes;
    forall e | e in all.Values
      ensures e in ids.Values <==> !Goes(e, retention, now)
    {
      var k :| k in all && all[k] == e;
      if k in ids {
        assert ids[k] == e;
      }
    }
    assert all.Values - ids.Values == set e | e in all.Values && Goes(e, retention, now);
  }

  lemma PruneNext(all: map<string, Entry>, ids: map<string, Entry>, left: set<string>, id: string, retention: int,
                  now: Option<int>)
    requires PrunedSoFar(all, ids, left, retention, now) && id in left
    ensures id in ids
    ensures PrunedSoFar(all, if Goes(ids[id], retention, now) then ids - {id} else ids, left - {id}, retention, now)
  {
  }

  /** One address table is part of another. */
  ghost predicate Within(part: map<string, Entry>, all: map<string, Entry>) {
    forall ip :: ip in part ==> ip in all && part[ip] == all[ip]
  }

  /** A flow-only device whose last flow is longer ago than the retention; with none, or without a time, none goes. */
  predicate Goes(e: Entry, retention: int, now: Option<int>)
    reads e
  {
    retention > 0 && now.Some? && !e.fromAPI && e.flowSeen.Some? && e.flowSeen.value < now.value - retention
  }

  lemma GoesIs(e: Entry, retention: int, now: Option<int>)
    ensures Goes(e, retention, now)
       <==> retention > 0 && now.Some? && !e.fromAPI && e.flowSeen.Some? && e.flowSeen.value < now.value - retention
  {
  }

  /** Valid, as a property of the three tables. */
  ghost predicate Sound(ids: map<string, Entry>, ips: map<string, Entry>, als: map<string, string>)
    reads ids.Values
  {
    && (forall id :: id in ids ==> id != "" && ids[id].id == id)
    && (forall a :: a in als ==> a != "" && a !in ids && als[a] in ids && a in ids[als[a]].aliases)
    && (forall ip :: ip in ips && ip != "" ==> ips[ip] in ids.Values && (ips[ip].fromAPI || ip in ips[ip].ips))
  }

  lemma UnmappedIs(before: map<string, Entry>, after: map<string, Entry>, entry: Entry)
    requires after == map ip | ip in before && !(before[ip] == entry && ip in entry.ips) :: before[ip]
    ensures after == Unmapped(before, entry)
  {
  }

  /** The tables without a flow-only device, its aliases and its addresses are sound. */
  lemma RemovedSound(ids: map<string, Entry>, ips: map<string, Entry>, als: map<string, string>, id: string)
    requires Sound(ids, ips, als) && id in ids && !ids[id].fromAPI
    ensures Sound(ids - {id}, Unmapped(ips, ids[id]), Unaliased(als, id))
    ensures id !in als && forall a :: a in als && als[a] == id ==> a in ids[id].aliases
    ensures ("" in ips ==> ips[""] in ids.Values) ==>
              (("" in Unmapped(ips, ids[id]) ==> Unmapped(ips, ids[id])[""] in (ids - {id}).Values)
               <==> !("" in ips && ips[""] == ids[id] && "" !in ids[id].ips))
  {
    OthersLive(ids, id);
  }

  lemma DroppedAre(before: map<string, string>, after: map<string, string>, list: seq<string>, id: string)
    requires id !in before && forall a :: a in before && before[a] == id ==> a in list
    requires after == map a | a in before - {id} && !((before - {id})[a] == id && a in list) :: (before - {id})[a]
    ensures after == Unaliased(before, id)
  {
  }

  lemma OthersLive(m: map<string, Entry>, id: string)
    requires id in m && forall i, j :: i in m && j in m && m[i] == m[j] ==> i == j
    ensures (m - {id}).Values == m.Values - {m[id]}
  {
    forall e | e in m.Values && e != m[id]
      ensures e in (m - {id}).Values
    {
      var k :| k in m && m[k] == e;
      assert (m - {id})[k] == e;
    }
  }

  lemma OneFewer(m: map<string, Entry>, id: string)
    requires id in m
    ensures |m - {id}| == |m| - 1
  {
    assert (m - {id}).Keys == m.Keys - {id};
    assert |m - {id}| == |(m - {id}).Keys| && |m| == |m.Keys|;
  }

  /**
   An empty address of the device list is stored with the device and comes
   back in its metadata row after the device has left the list. Adopting the
   row maps the address, merging another row of the device drops it from the
   device's list, and so it outlives the device when that is pruned.
   */
  method EmptyAddressOutlivesItsDevice() returns (c: Cache)
    ensures c.Valid() && c.idToDevice == map[] && !c.EmptyAddressLive()
  {
    c := new Cache(ip => ip == "100.64.0.1");
    c.Update([Device("n1", "", "", ["", "100.64.0.1"])]);
    c.Update([]);
    EmptyUpdate(c);
    var e := c.AdoptStored();
    c.AdoptLater(e);
    c.PruneHolder(e);
  }

  lemma EmptyUpdate(c: Cache)
    requires c.Valid() && c.EmptyAddressLive() && c.idToDevice.Keys == IdsOf([])
    ensures c.idToDevice == map[] && c.ipToDevice == map[]
  {
    assert c.idToDevice == map[];
    assert forall ip :: ip !in c.ipToDevice;
  }

  method DropAliases(before: map<string, string>, list: seq<string>, id: string) returns (aliases: map<string, string>)
    ensures aliases == map a | a in before && !(before[a] == id && a in list) :: before[a]
  {
    aliases := before;
    var i := 0;
    while i < |list|
      invariant 0 <= i <= |list|
      invariant aliases == map a | a in before && !(before[a] == id && a in list[..i]) :: before[a]
    {
      var alias := list[i];
      assert list[..i + 1] == list[..i] + [alias];
      if alias in aliases && aliases[alias] == id {
        aliases := aliases - {alias};
      }
      i := i + 1;
    }
    assert list[..i] == list;
  }

  method DropIPs(before: map<string, Entry>, list: seq<string>, e: Entry) returns (ips: map<string, Entry>)
    ensures ips == map ip | ip in before && !(before[ip] == e && ip in list) :: before[ip]
  {
    ips := before;
    var i := 0;
    while i < |list|
      invariant 0 <= i <= |list|
      invariant ips == map ip | ip in before && !(before[ip] == e && ip in list[..i]) :: before[ip]
    {
      assert list[..i + 1] == list[..i] + [list[i]];
      if list[i] in ips && ips[list[i]] == e {
        ips := ips - {list[i]};
      }
      i := i + 1;
    }
    assert list[..i] == list;
  }

  lemma NewValue(m: map<string, Entry>, id: string, e: Entry)
    requires id !in m
    ensures m[id := e].Values == m.Values + {e}
  {
    forall x | x in m.Values + {e}
      ensures x in m[id := e].Values
    {
      if x in m.Values {
        var k :| k in m && m[k] == x;
        assert m[id := e][k] == x;
      } else {
        assert m[id := e][id] == x;
      }
    }
  }

  lemma SameEntries(before: map<string, Entry>, oldID: string, newID: string, entry: Entry)
    requires oldID in before && before[oldID] == entry && newID !in before
    requires forall i, j :: i in before && j in before && before[i] == before[j] ==> i == j
    ensures var after := (before - {oldID})[newID := entry];
            after.Values == before.Values && (forall id :: id in after && id != newID ==> after[id] != entry)
  {
    var after := (before - {oldID})[newID := entry];
    forall e | e in before.Values
      ensures e in after.Values
    {
      var id :| id in before && before[id] == e;
      if id != oldID {
        assert after[id] == e;
      } else {
        assert after[newID] == e;
      }
    }
  }

  /** After a rekey every alias reaches a live device that lists it. */
  lemma SwapReach(ids: map<string, Entry>, als: map<string, string>, entry: Entry, oldID: string, newID: string,
                  list: seq<string>, kept: seq<string>)
    requires oldID in ids && ids[oldID] == entry && newID !in ids && newID != "" && entry.aliases == kept
    requires forall a :: a in als ==>
             a != "" && a !in ids && als[a] in ids && (als[a] != oldID ==> a in ids[als[a]].aliases)
    requires forall a :: a in als && als[a] == oldID ==> a in list
    requires forall a :: a in kept <==> IsMoved(als - {newID}, list, oldID, a)
    ensures var moved, after := MovedTo(als - {newID}, list, oldID, newID), (ids - {oldID})[newID := entry];
            forall a :: a in moved ==> a != "" && a !in after && moved[a] in after && a in after[moved[a]].aliases
  {
  }

  /** A listed alias that still points at oldID. */
  predicate IsMoved(before: map<string, string>, list: seq<string>, oldID: string, a: string) {
    a in before && before[a] == oldID && a in list
  }

  function MovedTo(before: map<string, string>, list: seq<string>, oldID: string, newID: string): map<string, string> {
    map a | a in before :: if IsMoved(before, list, oldID, a) then newID else before[a]
  }

  /** The loop of rekeyLocked: the listed aliases of oldID are pointed at newID, and only they stay listed. */
  method MoveAliases(before: map<string, string>, list: seq<string>, oldID: string, newID: string)
    returns (aliases: map<string, string>, kept: seq<string>)
    requires newID !in before && oldID != newID
    ensures aliases == MovedTo(before, list, oldID, newID)
    ensures forall a :: a in kept <==> IsMoved(before, list, oldID, a)
  {
    hide MovedTo, IsMoved;
    aliases, kept := before, [];
    var i := 0;
    MoveNone(before, list, oldID, newID);
    while i < |list|
      invariant 0 <= i <= |list|
      invariant aliases == MovedTo(before, list[..i], oldID, newID)
      invariant forall a :: a in kept <==> IsMoved(before, list[..i], oldID, a)
    {
      var alias := list[i];
      MoveOne(before, list[..i], oldID, newID, alias);
      assert list[..i + 1] == list[..i] + [alias];
      if alias != newID && alias in aliases && aliases[alias] == oldID {
        aliases := aliases[alias := newID];
        kept := kept + [alias];
      }
      i := i + 1;
    }
    assert list[..i] == list;
  }

  lemma MoveNone(before: map<string, string>, list: seq<string>, oldID: string, newID: string)
    ensures MovedTo(before, list[..0], oldID, newID) == before
    ensures forall a :: !IsMoved(before, list[..0], oldID, a)
  {
  }

  lemma MoveOne(before: map<string, string>, done: seq<string>, oldID: string, newID: string, alias: string)
    requires newID !in before && oldID != newID
    ensures var now := MovedTo(before, done, oldID, newID);
            MovedTo(before, done + [alias], oldID, newID)
            == if alias in now && now[alias] == oldID then now[alias := newID] else now
    ensures var now := MovedTo(before, done, oldID, newID);
            forall a :: IsMoved(before, done + [alias], oldID, a)
                   <==> IsMoved(before, done, oldID, a) || (a == alias && alias in now && now[alias] == oldID)
    ensures newID !in MovedTo(before, done, oldID, newID)
  {
  }

  /** When every alias of oldID is listed, the loop redirects them all. */
  lemma MovedIsRedirected(aliases: map<string, string>, list: seq<string>, oldID: string, newID: string)
    requires forall a :: a in aliases && aliases[a] == oldID ==> a in list
    ensures MovedTo(aliases - {newID}, list, oldID, newID)[oldID := newID] == Redirected(aliases, oldID, newID)
  {
  }

  /** Every alias of oldID, and oldID itself, now reaches newID; newID is no alias. */
  function Redirected(aliases: map<string, string>, oldID: string, newID: string): map<string, string> {
    (map a | a in aliases && a != newID :: if aliases[a] == oldID then newID else aliases[a])[oldID := newID]
  }
}
