/**
 * OpenMrsCallsUtils: the write helpers. Each sends one kind of request with
 * a bounded number of attempts, swallows every failure, and changes the
 * local node (and the code index) only after the server answers 200.
 */
module Calls {
  import opened Wrappers
  import opened Strings
  import opened Domain
  import opened Remote
  import opened State

  /** The attribute key a write of that attribute type stores under. */
  function AttributeKey(attributeType: string, hfrCodeType: string): string
  {
    if EqualsIgnoreCase(attributeType, hfrCodeType) then "HFR Code" else "Code"
  }

  /**
   * updateLocationName: up to 10 attempts; on 200 the node takes the new
   * name and 200 is returned, otherwise the node is untouched and -1 is
   * returned.
   */
  method UpdateLocationName(reg: Registry, location: Location, newName: string) returns (code: int)
    modifies reg.server, location
    ensures var start := |old(reg.server.sent)|;
      reg.server.sent == old(reg.server.sent) +
        Repeat(RenameRequest(old(location.locationId), newName), Attempts(reg.server.script, start, 10, UntilOk))
    ensures code == 200 || code == -1
    ensures code == 200 <==> Stopped(reg.server.script, |old(reg.server.sent)|, 10, UntilOk)
    ensures code == 200 ==> location.Value() == old(location.Value()).(name := Some(newName))
    ensures code == -1 ==> location.Value() == old(location.Value())
  {
    var _, renamed := reg.server.SendWithRetries(RenameRequest(location.locationId, newName), 10, UntilOk);
    if renamed {
      location.SetName(Some(newName));
      return 200;
    }
    code := -1;
  }

  /**
   * updateChildLocationParent: up to 10 attempts; on 200 the parent becomes
   * the id-index lookup of the new parent id (null when it is not indexed).
   */
  method UpdateChildLocationParent(reg: Registry, child: Location, newParentUuid: Option<string>)
    modifies reg.server, child
    ensures var start := |old(reg.server.sent)|;
      reg.server.sent == old(reg.server.sent) +
        Repeat(ReparentRequest(old(child.locationId), newParentUuid), Attempts(reg.server.script, start, 10, UntilOk))
    ensures Stopped(reg.server.script, |old(reg.server.sent)|, 10, UntilOk) ==>
      child.Value() == old(child.Value()).(parentLocation := reg.FindLocationByUuid(newParentUuid))
    ensures !Stopped(reg.server.script, |old(reg.server.sent)|, 10, UntilOk) ==>
      child.Value() == old(child.Value())
  {
    var _, moved := reg.server.SendWithRetries(ReparentRequest(child.locationId, newParentUuid), 10, UntilOk);
    if moved {
      var newParent := reg.FindLocationByUuid(newParentUuid);
      child.SetParentLocation(newParent);
    }
  }

  /**
   * addLocationAttribute: up to 3 attempts; on 200 the attribute map is
   * created if null, the value is stored under HFR Code or Code, and the
   * node is indexed under the lower-cased value. No other key changes.
   */
  method AddLocationAttribute(reg: Registry, location: Location, attributeType: string, newValue: string)
    modifies reg, reg.server, location
    ensures reg.allLocations == old(reg.allLocations) && reg.locationCache == old(reg.locationCache)
    ensures var start := |old(reg.server.sent)|;
      reg.server.sent == old(reg.server.sent) +
        Repeat(AttributeRequest(old(location.locationId), attributeType, newValue),
               Attempts(reg.server.script, start, 3, UntilOk))
    ensures Stopped(reg.server.script, |old(reg.server.sent)|, 3, UntilOk) ==>
      location.Value() == old(location.Value()).(attributes :=
        Some(Lazy(old(location.attributes))[AttributeKey(attributeType, reg.hfrCodeType) := newValue])) &&
      reg.codeCache == old(reg.codeCache)[ToLower(newValue) := location]
    ensures !Stopped(reg.server.script, |old(reg.server.sent)|, 3, UntilOk) ==>
      location.Value() == old(location.Value()) && reg.codeCache == old(reg.codeCache)
    ensures old(reg.Valid()) && location in reg.allLocations ==> reg.Valid()
  {
    var _, added := reg.server.SendWithRetries(AttributeRequest(location.locationId, attributeType, newValue), 3, UntilOk);
    if added {
      if location.attributes.None? {
        location.SetAttributes(Some(map[]));
      }
      if EqualsIgnoreCase(attributeType, reg.hfrCodeType) {
        location.SetAttributes(Some(location.attributes.value["HFR Code" := newValue]));
      } else {
        location.SetAttributes(Some(location.attributes.value["Code" := newValue]));
      }
      reg.codeCache := reg.codeCache[ToLower(newValue) := location];
    }
  }

  /** How many attribute attempts updateOrCreateLocationAttribute makes: none when the node already has a Code. */
  function AddTries(script: nat -> Reply, start: nat, hasCode: bool): nat
  {
    if hasCode then 0 else Attempts(script, start, 3, UntilOk)
  }

  /** updateOrCreateLocationAttribute went through: the node had no Code and the write was accepted. */
  predicate Added(script: nat -> Reply, start: nat, hasCode: bool)
  {
    !hasCode && Stopped(script, start, 3, UntilOk)
  }

  /**
   * updateOrCreateLocationAttribute: adds the attribute only when the node
   * has no attribute map or no Code in it; an existing Code is never
   * overwritten and nothing is sent.
   */
  method UpdateOrCreateLocationAttribute(reg: Registry, location: Location, attributeType: string, newValue: string)
    modifies reg, reg.server, location
    ensures reg.allLocations == old(reg.allLocations) && reg.locationCache == old(reg.locationCache)
    ensures reg.server.sent == old(reg.server.sent) +
      Repeat(AttributeRequest(old(location.locationId), attributeType, newValue),
             AddTries(reg.server.script, |old(reg.server.sent)|, old(HasCode(location))))
    ensures location.Value() ==
      if Added(reg.server.script, |old(reg.server.sent)|, old(HasCode(location)))
      then old(location.Value()).(attributes :=
        Some(Lazy(old(location.attributes))[AttributeKey(attributeType, reg.hfrCodeType) := newValue]))
      else old(location.Value())
    ensures reg.codeCache ==
      if Added(reg.server.script, |old(reg.server.sent)|, old(HasCode(location)))
      then old(reg.codeCache)[ToLower(newValue) := location]
      else old(reg.codeCache)
    ensures old(reg.Valid()) && location in reg.allLocations ==> reg.Valid()
  {
    if location.attributes.None? || "Code" !in location.attributes.value {
      AddLocationAttribute(reg, location, attributeType, newValue);
    } else {
      assert reg.server.sent == old(reg.server.sent) + [];
    }
  }

  /** The node has an attribute map with a Code in it. */
  predicate HasCode(location: Location)
    reads location
  {
    location.attributes.Some? && "Code" in location.attributes.value
  }

  /** A node with an id whose parent's id equals `uuid` ignoring case (a null uuid matches nothing). */
  predicate ChildOf(location: Location, uuid: Option<string>)
    reads location, location.parentLocation
  {
    location.locationId.Some? && location.parentLocation != null &&
    location.parentLocation.locationId.Some? && uuid.Some? &&
    EqualsIgnoreCase(location.parentLocation.locationId.value, uuid.value)
  }

  /** A Village-tagged node whose Code equals the record's Village_Code ignoring case. */
  predicate MatchingVillage(location: Location, rec: Record)
    reads location
  {
    location.tags.Some? && "Village" in location.tags.value && HasCode(location) &&
    "Village_Code" in rec && EqualsIgnoreCase(location.attributes.value["Code"], rec["Village_Code"])
  }

  /** The node is a matching village directly under `uuid`: the only kind getOtherLocation changes. */
  predicate OtherTarget(location: Location, uuid: Option<string>, rec: Record)
    reads location, location.parentLocation
  {
    ChildOf(location, uuid) && MatchingVillage(location, rec)
  }

  /**
   * When the body of getOtherLocation throws for one node: the parent's id
   * is null, or a Village child of `uuid` has a null attribute map, or a
   * Code but the record lacks Village_Code, or it matches but the record
   * lacks `village` or the node's name is null.
   */
  predicate OtherVisitThrows(location: Location, uuid: Option<string>, rec: Record)
    reads location, location.parentLocation
  {
    location.locationId.Some? && location.parentLocation != null &&
    (location.parentLocation.locationId.None? ||
     (ChildOf(location, uuid) && location.tags.Some? && "Village" in location.tags.value &&
      (location.attributes.None? ||
       ("Code" in location.attributes.value &&
        ("Village_Code" !in rec || (MatchingVillage(location, rec) && ("village" !in rec || location.name.None?)))))))
  }

  /**
   * The body of getOtherLocation's loop for one node. A matching village
   * keeps its Code (the attribute write is skipped because a Code is
   * present) and is renamed to the raw village name when the names differ
   * ignoring case. Any other node is left alone.
   */
  method VisitOtherLocation(reg: Registry, location: Location, uuid: Option<string>, rec: Record) returns (r: Result<()>)
    modifies reg, reg.server, if OtherTarget(location, uuid, rec) then {location} else {}
    ensures reg.allLocations == old(reg.allLocations) && reg.locationCache == old(reg.locationCache)
    ensures reg.codeCache == old(reg.codeCache)
    ensures r.Threw? <==> old(OtherVisitThrows(location, uuid, rec))
    ensures location.Value() == old(location.Value()).(name := location.name)
    ensures |reg.server.sent| >= |old(reg.server.sent)| && reg.server.sent[..|old(reg.server.sent)|] == old(reg.server.sent)
    ensures "village" in rec ==> OnlyRenamesTo(reg.server.sent, |old(reg.server.sent)|, rec["village"])
    ensures "village" !in rec ==> reg.server.sent == old(reg.server.sent)
    ensures !old(OtherTarget(location, uuid, rec)) || "village" !in rec ||
            old(location.name).None? || EqualsIgnoreCase(old(location.name).value, rec["village"]) ==>
      reg.server.sent == old(reg.server.sent) && location.Value() == old(location.Value())
    ensures old(OtherTarget(location, uuid, rec)) && "village" in rec && old(location.name).Some? &&
            !EqualsIgnoreCase(old(location.name).value, rec["village"]) ==>
      var start := |old(reg.server.sent)|;
      var renamed := Stopped(reg.server.script, start, 10, UntilOk);
      reg.server.sent == old(reg.server.sent) +
        Repeat(RenameRequest(old(location.locationId), rec["village"]), Attempts(reg.server.script, start, 10, UntilOk)) &&
      location.Value() == old(location.Value()).(name := if renamed then Some(rec["village"]) else old(location.name))
  {
    if location.locationId.None? || location.parentLocation == null {
      return Ok(());
    }
    var parentId := location.parentLocation.locationId;
    if parentId.None? {
      return Threw(NullPointer);
    }
    if uuid.None? || !EqualsIgnoreCase(parentId.value, uuid.value) {
      return Ok(());
    }
    if location.tags.None? || "Village" !in location.tags.value {
      return Ok(());
    }
    if location.attributes.None? {
      return Threw(NullPointer);
    }
    if "Code" !in location.attributes.value {
      return Ok(());
    }
    var villageCode := GetString(rec, "Village_Code");
    if villageCode.Threw? {
      return Threw(villageCode.error);
    }
    if !EqualsIgnoreCase(location.attributes.value["Code"], villageCode.value) {
      return Ok(());
    }
    var village := GetString(rec, "village");
    if village.Threw? {
      return Threw(village.error);
    }
    UpdateOrCreateLocationAttribute(reg, location, reg.codeType, villageCode.value);
    if location.name.None? {
      return Threw(NullPointer);
    }
    if !EqualsIgnoreCase(location.name.value, village.value) {
      var _ := UpdateLocationName(reg, location, village.value);
    }
    r := Ok(());
  }

  /** Every request logged from position `from` on renames a node to `name`. */
  ghost predicate OnlyRenamesTo(log: seq<Request>, from: nat, name: string)
  {
    forall k :: from <= k < |log| ==> log[k].RenameRequest? && log[k].newName == name
  }

  /** Two stretches of renames to the same name, one after the other, make one. */
  lemma RenamesChain(log: seq<Request>, mid: seq<Request>, now: seq<Request>, name: string, villageKnown: bool)
    requires |mid| >= |log| && mid[..|log|] == log && |now| >= |mid| && now[..|mid|] == mid
    requires villageKnown ==> OnlyRenamesTo(mid, |log|, name) && OnlyRenamesTo(now, |mid|, name)
    requires !villageKnown ==> mid == log && now == mid
    ensures |now| >= |log| && now[..|log|] == log
    ensures villageKnown ==> OnlyRenamesTo(now, |log|, name)
    ensures !villageKnown ==> now == log
  {
    assert now[..|log|] == now[..|mid|][..|log|];
    if villageKnown {
      forall k | |log| <= k < |now| ensures now[k].RenameRequest? && now[k].newName == name {
        if k < |mid| {
          assert now[k] == now[..|mid|][k];
        }
      }
    }
  }

  /** The nodes getOtherLocation may touch. */
  ghost function OtherTargets(reg: Registry, uuid: Option<string>, rec: Record): set<Location>
    reads reg, reg.allLocations, set l | l in reg.allLocations :: l.parentLocation
  {
    set l | l in reg.allLocations && OtherTarget(l, uuid, rec)
  }

  /** A matching village with this value is renamed when visited: its name differs from the record's, ignoring case. */
  predicate OtherRenames(v: LocationValue, rec: Record)
  {
    "village" in rec && v.name.Some? && !EqualsIgnoreCase(v.name.value, rec["village"])
  }

  /**
   * The targets `targets` keep their place under the facility and, against
   * their values `before` at the start of the walk, change at most their
   * name, and only to the record's village name after a rename.
   */
  ghost predicate OtherKept(uuid: Option<string>, rec: Record, targets: set<Location>, before: map<Location, LocationValue>)
    reads targets, set t | t in targets :: t.parentLocation
  {
    (forall t :: t in targets ==> t in before && OtherTarget(t, uuid, rec) && t.Value() == before[t].(name := t.name)) &&
    (forall t :: t in targets && t.name != before[t].name ==>
       OtherRenames(before[t], rec) && t.name == Some(rec["village"]))
  }

  /**
   * What getOtherLocation's loop keeps after the first `i` nodes, against
   * the log `log` at the start: a target not reached yet is unchanged, and a
   * target reached whose name differed has been sent the rename and, when
   * every reply from the start is a 200, carries the record's village name.
   */
  ghost predicate OtherWalked(reg: Registry, i: nat, rec: Record, targets: set<Location>,
                              before: map<Location, LocationValue>, log: seq<Request>)
    requires i <= |reg.allLocations|
    requires forall t :: t in targets ==> t in before
    reads reg, reg.server, targets
  {
    (forall t :: t in targets && t !in reg.allLocations[..i] ==> t.name == before[t].name) &&
    (forall t :: t in targets && t in reg.allLocations[..i] && OtherRenames(before[t], rec) ==>
       SentSince(reg.server.sent, |log|, RenameRequest(before[t].locationId, rec["village"]))) &&
    (AllAccepted(reg.server.script, |log|) ==>
       forall t :: t in targets && t in reg.allLocations[..i] && OtherRenames(before[t], rec) ==>
         t.name == Some(rec["village"]))
  }

  /**
   * VisitOtherLocation restated for the walk: the visited node changes at
   * most its name, only to the record's village name when it was a target
   * whose name differed, and such a target is sent the rename attempts,
   * the first of which is accepted when every reply from here on is a 200.
   */
  method VisitOtherOne(reg: Registry, location: Location, uuid: Option<string>, rec: Record) returns (r: Result<()>)
    modifies reg, reg.server, if OtherTarget(location, uuid, rec) then {location} else {}
    ensures reg.allLocations == old(reg.allLocations) && reg.locationCache == old(reg.locationCache)
    ensures reg.codeCache == old(reg.codeCache)
    ensures location.Value() == old(location.Value()).(name := location.name)
    ensures location.name != old(location.name) ==>
      old(OtherTarget(location, uuid, rec)) && OtherRenames(old(location.Value()), rec) && location.name == Some(rec["village"])
    ensures |reg.server.sent| >= |old(reg.server.sent)| && reg.server.sent[..|old(reg.server.sent)|] == old(reg.server.sent)
    ensures "village" in rec ==> OnlyRenamesTo(reg.server.sent, |old(reg.server.sent)|, rec["village"])
    ensures "village" !in rec ==> reg.server.sent == old(reg.server.sent)
    ensures old(OtherTarget(location, uuid, rec)) && OtherRenames(old(location.Value()), rec) ==>
      reg.server.sent == old(reg.server.sent) + (Repeat(RenameRequest(old(location.locationId), rec["village"]),
        Attempts(reg.server.script, |old(reg.server.sent)|, 10, UntilOk)) + [])
    ensures old(OtherTarget(location, uuid, rec)) && OtherRenames(old(location.Value()), rec) &&
            AllAccepted(reg.server.script, |old(reg.server.sent)|) ==>
      location.name == Some(rec["village"])
  {
    ghost var start := |reg.server.sent|;
    r := VisitOtherLocation(reg, location, uuid, rec);
    if AllAccepted(reg.server.script, start) {
      OneAttemptWhenFirstStops(reg.server.script, start, 10, UntilOk);
    }
  }

  /**
   * The visit of one node of the list, stated over what the walk keeps: the
   * targets stay within OtherKept, only the visited node may change, and a
   * visited target still carrying its first name whose name differs gets
   * the rename attempts.
   */
  method VisitOtherKept(reg: Registry, location: Location, uuid: Option<string>, rec: Record, ghost targets: set<Location>,
                        ghost before: map<Location, LocationValue>)
    returns (r: Result<()>)
    requires location in reg.allLocations
    requires forall l :: l in reg.allLocations && OtherTarget(l, uuid, rec) ==> l in targets
    requires OtherKept(uuid, rec, targets, before)
    modifies reg, reg.server, targets
    ensures reg.allLocations == old(reg.allLocations) && reg.locationCache == old(reg.locationCache)
    ensures reg.codeCache == old(reg.codeCache)
    ensures forall l :: l in reg.allLocations && OtherTarget(l, uuid, rec) ==> l in targets
    ensures OtherKept(uuid, rec, targets, before)
    ensures forall t :: t in targets && t != location ==> t.name == old(t.name)
    ensures |reg.server.sent| >= |old(reg.server.sent)| && reg.server.sent[..|old(reg.server.sent)|] == old(reg.server.sent)
    ensures "village" in rec ==> OnlyRenamesTo(reg.server.sent, |old(reg.server.sent)|, rec["village"])
    ensures "village" !in rec ==> reg.server.sent == old(reg.server.sent)
    ensures location in targets && old(location.name) == before[location].name && OtherRenames(before[location], rec) ==>
      reg.server.sent == old(reg.server.sent) + (Repeat(RenameRequest(before[location].locationId, rec["village"]),
        Attempts(reg.server.script, |old(reg.server.sent)|, 10, UntilOk)) + [])
    ensures location in targets && old(location.name) == before[location].name && OtherRenames(before[location], rec) &&
            AllAccepted(reg.server.script, |old(reg.server.sent)|) ==>
      location.name == Some(rec["village"])
    ensures "village" in rec && old(location.name) == Some(rec["village"]) ==> location.name == old(location.name)
  {
    r := VisitOtherOne(reg, location, uuid, rec);
    forall t | t in targets
      ensures t.Value() == old(t.Value()).(name := t.name)
      ensures t.parentLocation != null ==> t.parentLocation.locationId == old(t.parentLocation.locationId)
    {
      if t.parentLocation != null && t.parentLocation != location {
        assert t.parentLocation.locationId == old(t.parentLocation.locationId);
      }
    }
    forall t | t in targets ensures OtherTarget(t, uuid, rec) {
      assert old(OtherTarget(t, uuid, rec));
    }
  }

  /** One turn of getOtherLocation's loop, stated over what the walk keeps. */
  method VisitOtherNext(reg: Registry, i: nat, uuid: Option<string>, rec: Record, ghost targets: set<Location>,
                        ghost before: map<Location, LocationValue>, ghost log: seq<Request>)
    returns (r: Result<()>)
    requires i < |reg.allLocations|
    requires forall l :: l in reg.allLocations && OtherTarget(l, uuid, rec) ==> l in targets
    requires OtherKept(uuid, rec, targets, before) && OtherWalked(reg, i, rec, targets, before, log)
    requires |reg.server.sent| >= |log| && reg.server.sent[..|log|] == log
    requires "village" in rec ==> OnlyRenamesTo(reg.server.sent, |log|, rec["village"])
    requires "village" !in rec ==> reg.server.sent == log
    modifies reg, reg.server, targets
    ensures reg.allLocations == old(reg.allLocations) && reg.locationCache == old(reg.locationCache)
    ensures reg.codeCache == old(reg.codeCache)
    ensures forall l :: l in reg.allLocations && OtherTarget(l, uuid, rec) ==> l in targets
    ensures OtherKept(uuid, rec, targets, before)
    ensures OtherWalked(reg, i + 1, rec, targets, before, log)
    ensures |reg.server.sent| >= |log| && reg.server.sent[..|log|] == log
    ensures "village" in rec ==> OnlyRenamesTo(reg.server.sent, |log|, rec["village"])
    ensures "village" !in rec ==> reg.server.sent == log
  {
    var location := reg.allLocations[i];
    ghost var mid := reg.server.sent;
    ghost var firstVisit := location in targets && location !in reg.allLocations[..i];
    r := VisitOtherKept(reg, location, uuid, rec, targets, before);
    RenamesChain(log, mid, reg.server.sent, if "village" in rec then rec["village"] else "", "village" in rec);
    assert reg.allLocations[..i + 1] == reg.allLocations[..i] + [location];
    forall t | t in targets && t in reg.allLocations[..i + 1] && OtherRenames(before[t], rec)
      ensures SentSince(reg.server.sent, |log|, RenameRequest(before[t].locationId, rec["village"]))
    {
      if t in reg.allLocations[..i] {
        SentSinceKept(mid, reg.server.sent, |log|, RenameRequest(before[t].locationId, rec["village"]));
      } else {
        assert t == location && firstVisit;
        SentSinceRepeat(mid, |log|, RenameRequest(before[t].locationId, rec["village"]),
                        Attempts(reg.server.script, |mid|, 10, UntilOk), [], reg.server.sent);
      }
    }
    if AllAccepted(reg.server.script, |log|) {
      assert AllAccepted(reg.server.script, |mid|);
      forall t | t in targets && t in reg.allLocations[..i + 1] && OtherRenames(before[t], rec)
        ensures t.name == Some(rec["village"])
      {
        if t != location {
          assert t in reg.allLocations[..i];
        } else if !firstVisit {
          assert old(t.name) == Some(rec["village"]);
        }
      }
    }
  }

  /**
   * getOtherLocation: walks the node list and refreshes each matching
   * village directly under the facility `uuid`. Only those nodes change,
   * and only in their name: a node whose name is kept had no name to
   * replace or already carried the record's village name ignoring case,
   * and a changed name is the record's village name. When the walk ends
   * without a throw, every matching village whose name differed was sent
   * the rename, and when moreover every reply from the start is a 200 it
   * now carries the record's village name. The only requests sent are
   * renames to the record's village name. A throw ends the walk.
   */
  method GetOtherLocation(reg: Registry, uuid: Option<string>, parentLocationUuid: Option<string>, rec: Record)
    returns (r: Result<()>)
    modifies reg, reg.server, OtherTargets(reg, uuid, rec)
    ensures reg.allLocations == old(reg.allLocations) && reg.locationCache == old(reg.locationCache)
    ensures reg.codeCache == old(reg.codeCache)
    ensures |reg.server.sent| >= |old(reg.server.sent)| && reg.server.sent[..|old(reg.server.sent)|] == old(reg.server.sent)
    ensures "village" in rec ==> OnlyRenamesTo(reg.server.sent, |old(reg.server.sent)|, rec["village"])
    ensures "village" !in rec ==> reg.server.sent == old(reg.server.sent)
    ensures forall t :: t in old(OtherTargets(reg, uuid, rec)) ==> t.Value() == old(t.Value()).(name := t.name)
    ensures forall t :: t in old(OtherTargets(reg, uuid, rec)) && t.name != old(t.name) ==>
      OtherRenames(old(t.Value()), rec) && t.name == Some(rec["village"])
    ensures r.Ok? ==> forall t :: t in old(OtherTargets(reg, uuid, rec)) && OtherRenames(old(t.Value()), rec) ==>
      SentSince(reg.server.sent, |old(reg.server.sent)|, RenameRequest(old(t.locationId), rec["village"]))
    ensures r.Ok? && AllAccepted(reg.server.script, |old(reg.server.sent)|) ==>
      forall t :: t in old(OtherTargets(reg, uuid, rec)) && OtherRenames(old(t.Value()), rec) ==>
        t.name == Some(rec["village"])
  {
    ghost var targets := OtherTargets(reg, uuid, rec);
    ghost var before := map t | t in targets :: t.Value();
    ghost var log := reg.server.sent;
    var i := 0;
    while i < |reg.allLocations|
      invariant 0 <= i <= |reg.allLocations|
      invariant reg.allLocations == old(reg.allLocations) && reg.locationCache == old(reg.locationCache)
      invariant reg.codeCache == old(reg.codeCache)
      invariant forall l :: l in reg.allLocations && OtherTarget(l, uuid, rec) ==> l in targets
      invariant OtherKept(uuid, rec, targets, before) && OtherWalked(reg, i, rec, targets, before, log)
      invariant |reg.server.sent| >= |log| && reg.server.sent[..|log|] == log
      invariant "village" in rec ==> OnlyRenamesTo(reg.server.sent, |log|, rec["village"])
      invariant "village" !in rec ==> reg.server.sent == log
    {
      r := VisitOtherNext(reg, i, uuid, rec, targets, before, log);
      if r.Threw? {
        return;
      }
      i := i + 1;
    }
    r := Ok(());
  }
}
