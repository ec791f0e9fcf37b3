/**
 * Main.getChildLocation: once a facility is resolved, the villages filed
 * directly under it are put back under the facility's own parent. A village
 * whose name differs, ignoring case, from the record's raw "village - ward"
 * is renamed; only when that rename is accepted is the Code attribute added
 * where it is missing and the village reparented.
 */
module Realign {
  import opened Wrappers
  import opened Strings
  import opened Domain
  import opened Remote
  import opened State
  import opened Calls

  /** A Village-tagged node directly under `uuid`: the only kind getChildLocation changes. */
  predicate ChildVillage(location: Location, uuid: Option<string>)
    reads location, location.parentLocation
  {
    ChildOf(location, uuid) && location.tags.Some? && "Village" in location.tags.value
  }

  /** The raw, uncapitalised name a village under the facility should carry: "village - ward". */
  function ExpectedName(rec: Record): Result<string>
  {
    match GetString(rec, "village")
    case Threw(e) => Threw(e)
    case Ok(village) =>
      match GetString(rec, "ward")
      case Threw(e) => Threw(e)
      case Ok(ward) => Ok(village + " - " + ward)
  }

  /** A village child with this value is due a rename: its name differs, ignoring case, from the expected one. */
  predicate RenameDue(v: LocationValue, rec: Record)
  {
    ExpectedName(rec).Ok? && v.name.Some? && !EqualsIgnoreCase(v.name.value, ExpectedName(rec).value)
  }

  /** The visit of this node sends a rename: a village child due one. */
  ghost predicate Renames(location: Location, uuid: Option<string>, rec: Record)
    reads location, location.parentLocation
  {
    ChildVillage(location, uuid) && RenameDue(location.Value(), rec)
  }

  /**
   * The visit of this node throws before sending anything: the node's parent
   * has a null id, or it is a village child and the record lacks `village`
   * or `ward`, or its name is null.
   */
  predicate VisitThrows(location: Location, uuid: Option<string>, rec: Record)
    reads location, location.parentLocation
  {
    location.locationId.Some? && location.parentLocation != null &&
    (location.parentLocation.locationId.None? ||
     (ChildVillage(location, uuid) && (ExpectedName(rec).Threw? || location.name.None?)))
  }

  /** Where the relink's reparent attempts start: after the Code attempts, if any. */
  function ReparentStart(script: nat -> Reply, start: nat, hasCode: bool): nat
  {
    start + AddTries(script, start, hasCode)
  }

  /** Where the relink starts: after the rename attempts. */
  function RenameEnd(script: nat -> Reply, start: nat): nat
  {
    start + Attempts(script, start, 10, UntilOk)
  }

  /** The requests the relink of a renamed village sends: the Code attribute unless one is there, then the new parent. */
  function RelinkLog(script: nat -> Reply, start: nat, hasCode: bool, id: Option<string>, codeType: string,
                     villageCode: string, parentUuid: Option<string>): seq<Request>
  {
    Repeat(AttributeRequest(id, codeType, villageCode), AddTries(script, start, hasCode)) +
    Repeat(ReparentRequest(id, parentUuid), Attempts(script, ReparentStart(script, start, hasCode), 10, UntilOk))
  }

  /** The relink's reparent went through. */
  predicate Moved(script: nat -> Reply, start: nat, hasCode: bool)
  {
    Stopped(script, ReparentStart(script, start, hasCode), 10, UntilOk)
  }

  /** updateOrCreateLocationAttribute on the village, stated over the node's value `v0` before the call. */
  method AddVillageCode(reg: Registry, location: Location, villageCode: string, ghost v0: LocationValue, ghost hasCode: bool,
                        ghost at: nat)
    requires v0 == location.Value() && hasCode == HasCode(location) && at == |reg.server.sent|
    modifies reg, reg.server, location
    ensures reg.allLocations == old(reg.allLocations) && reg.locationCache == old(reg.locationCache)
    ensures reg.server.sent == old(reg.server.sent) +
      Repeat(AttributeRequest(v0.locationId, reg.codeType, villageCode), AddTries(reg.server.script, at, hasCode))
    ensures location.attributes ==
      if Added(reg.server.script, at, hasCode)
      then Some(Lazy(v0.attributes)[AttributeKey(reg.codeType, reg.hfrCodeType) := villageCode]) else v0.attributes
    ensures location.locationId == v0.locationId && location.name == v0.name && location.tags == v0.tags &&
            location.identifiers == v0.identifiers && location.parentLocation == v0.parentLocation
    ensures reg.codeCache ==
      if Added(reg.server.script, at, hasCode) then old(reg.codeCache)[ToLower(villageCode) := location]
      else old(reg.codeCache)
  {
    UpdateOrCreateLocationAttribute(reg, location, reg.codeType, villageCode);
  }

  /** updateChildLocationParent on the village, stated field by field over the node's value `v1` before the call. */
  method ReparentVillage(reg: Registry, location: Location, parentUuid: Option<string>, ghost v1: LocationValue,
                         ghost id: Option<string>, ghost at: nat)
    requires v1 == location.Value() && id == v1.locationId && at == |reg.server.sent|
    modifies reg.server, location
    ensures reg.server.sent == old(reg.server.sent) + Repeat(ReparentRequest(id, parentUuid), Attempts(reg.server.script, at, 10, UntilOk))
    ensures location.parentLocation ==
      if Stopped(reg.server.script, at, 10, UntilOk) then reg.FindLocationByUuid(parentUuid) else v1.parentLocation
    ensures location.locationId == v1.locationId && location.name == v1.name && location.tags == v1.tags &&
            location.identifiers == v1.identifiers && location.attributes == v1.attributes
  {
    UpdateChildLocationParent(reg, location, parentUuid);
  }

  /**
   * updateChildLocationParent on the village once the Code step is done,
   * stated over the node's value `v1` before the call and over the log
   * `log0` the relink started from at position `start`.
   */
  method MoveVillage(reg: Registry, location: Location, villageCode: string, parentUuid: Option<string>,
                     ghost v1: LocationValue, ghost hasCode: bool, ghost log0: seq<Request>, ghost start: nat)
    requires v1 == location.Value() && start == |log0|
    requires reg.server.sent == log0 +
      Repeat(AttributeRequest(v1.locationId, reg.codeType, villageCode), AddTries(reg.server.script, start, hasCode))
    modifies reg.server, location
    ensures reg.server.sent == log0 +
      RelinkLog(reg.server.script, start, hasCode, v1.locationId, reg.codeType, villageCode, parentUuid)
    ensures location.parentLocation ==
      if Moved(reg.server.script, start, hasCode) then reg.FindLocationByUuid(parentUuid) else v1.parentLocation
    ensures location.locationId == v1.locationId && location.name == v1.name && location.tags == v1.tags &&
            location.identifiers == v1.identifiers && location.attributes == v1.attributes
  {
    ghost var mid := reg.server.sent;
    ReparentVillage(reg, location, parentUuid, v1, v1.locationId, ReparentStart(reg.server.script, start, hasCode));
    AppendTwice(log0, Repeat(AttributeRequest(v1.locationId, reg.codeType, villageCode), AddTries(reg.server.script, start, hasCode)),
                Repeat(ReparentRequest(v1.locationId, parentUuid), Attempts(reg.server.script, ReparentStart(reg.server.script, start, hasCode), 10, UntilOk)),
                mid, reg.server.sent);
  }

  /**
   * The relink of a renamed village: updateOrCreateLocationAttribute with
   * the general code type and the record's Village_Code, then
   * updateChildLocationParent to the facility's parent. The Code goes in
   * only when the node had none and the write was accepted (and the node is
   * then indexed under it); the parent changes only when the reparent was
   * accepted.
   */
  method RelinkVillage(reg: Registry, location: Location, villageCode: string, parentUuid: Option<string>,
                       ghost v0: LocationValue, ghost hasCode: bool, ghost at: nat)
    requires v0 == location.Value() && hasCode == HasCode(location) && at == |reg.server.sent|
    modifies reg, reg.server, location
    ensures reg.allLocations == old(reg.allLocations) && reg.locationCache == old(reg.locationCache)
    ensures reg.server.sent == old(reg.server.sent) +
      RelinkLog(reg.server.script, at, hasCode, v0.locationId, reg.codeType, villageCode, parentUuid)
    ensures location.attributes ==
      if Added(reg.server.script, at, hasCode)
      then Some(Lazy(v0.attributes)[AttributeKey(reg.codeType, reg.hfrCodeType) := villageCode]) else v0.attributes
    ensures location.parentLocation ==
      if Moved(reg.server.script, at, hasCode) then reg.FindLocationByUuid(parentUuid)
      else v0.parentLocation
    ensures location.locationId == v0.locationId && location.name == v0.name && location.tags == v0.tags &&
            location.identifiers == v0.identifiers
    ensures reg.codeCache ==
      if Added(reg.server.script, at, hasCode) then old(reg.codeCache)[ToLower(villageCode) := location]
      else old(reg.codeCache)
  {
    AddVillageCode(reg, location, villageCode, v0, hasCode, at);
    MoveVillage(reg, location, villageCode, parentUuid, location.Value(), hasCode, old(reg.server.sent), at);
  }

  /** updateLocationName on the village, stated over the node's value `v0` before the call. */
  method RenameVillage(reg: Registry, location: Location, expected: string, ghost v0: LocationValue, ghost at: nat)
    returns (response: int)
    requires v0 == location.Value() && at == |reg.server.sent|
    modifies reg.server, location
    ensures reg.server.sent == old(reg.server.sent) +
      Repeat(RenameRequest(v0.locationId, expected), Attempts(reg.server.script, at, 10, UntilOk))
    ensures response == 200 || response == -1
    ensures response == 200 <==> Stopped(reg.server.script, at, 10, UntilOk)
    ensures location.name == if Stopped(reg.server.script, at, 10, UntilOk) then Some(expected) else v0.name
    ensures location.locationId == v0.locationId && location.tags == v0.tags && location.identifiers == v0.identifiers &&
            location.attributes == v0.attributes && location.parentLocation == v0.parentLocation
  {
    response := UpdateLocationName(reg, location, expected);
  }

  /** The rename went through and the record carries a Village_Code: the village is relinked. */
  predicate Relinked(script: nat -> Reply, at: nat, rec: Record)
  {
    Stopped(script, at, 10, UntilOk) && "Village_Code" in rec
  }

  /** The relink after a rename starting at `at` added the Code. */
  predicate CodeAdded(script: nat -> Reply, at: nat, hasCode: bool, rec: Record)
  {
    Relinked(script, at, rec) && Added(script, RenameEnd(script, at), hasCode)
  }

  /** The relink after a rename starting at `at` moved the village. */
  predicate Reparented(script: nat -> Reply, at: nat, hasCode: bool, rec: Record)
  {
    Relinked(script, at, rec) && Moved(script, RenameEnd(script, at), hasCode)
  }

  /** Everything the visit of a village to rename sends: the rename attempts, then the relink if it follows. */
  function VisitLog(script: nat -> Reply, at: nat, hasCode: bool, id: Option<string>, expected: string, codeType: string,
                    rec: Record, parentUuid: Option<string>): seq<Request>
  {
    Repeat(RenameRequest(id, expected), Attempts(script, at, 10, UntilOk)) +
    if Relinked(script, at, rec)
    then RelinkLog(script, RenameEnd(script, at), hasCode, id, codeType, rec["Village_Code"], parentUuid)
    else []
  }

  /**
   * What follows an accepted rename: the Village_Code is read, a missing one
   * throwing before anything is sent, and the village is relinked.
   */
  method RelinkRenamed(reg: Registry, location: Location, parentUuid: Option<string>, rec: Record,
                       ghost v1: LocationValue, ghost hasCode: bool, ghost at: nat)
    returns (r: Result<()>)
    requires v1 == location.Value() && hasCode == HasCode(location) && at == |reg.server.sent|
    modifies reg, reg.server, location
    ensures reg.allLocations == old(reg.allLocations) && reg.locationCache == old(reg.locationCache)
    ensures r.Threw? <==> "Village_Code" !in rec
    ensures r.Threw? ==> r.error == MissingJsonKey
    ensures location.locationId == v1.locationId && location.name == v1.name && location.tags == v1.tags &&
            location.identifiers == v1.identifiers
    ensures reg.server.sent == old(reg.server.sent) +
      if "Village_Code" in rec
      then RelinkLog(reg.server.script, at, hasCode, v1.locationId, reg.codeType, rec["Village_Code"], parentUuid)
      else []
    ensures location.attributes ==
      if "Village_Code" in rec && Added(reg.server.script, at, hasCode)
      then Some(Lazy(v1.attributes)[AttributeKey(reg.codeType, reg.hfrCodeType) := rec["Village_Code"]])
      else v1.attributes
    ensures location.parentLocation ==
      if "Village_Code" in rec && Moved(reg.server.script, at, hasCode) then reg.FindLocationByUuid(parentUuid)
      else v1.parentLocation
    ensures reg.codeCache ==
      if "Village_Code" in rec && Added(reg.server.script, at, hasCode)
      then old(reg.codeCache)[ToLower(rec["Village_Code"]) := location]
      else old(reg.codeCache)
  {
    var villageCode := GetString(rec, "Village_Code");
    if villageCode.Threw? {
      assert reg.server.sent == old(reg.server.sent) + [];
      return Threw(villageCode.error);
    }
    RelinkVillage(reg, location, villageCode.value, parentUuid, v1, hasCode, at);
    r := Ok(());
  }

  /**
   * The rename of a village whose name differs, and what follows it: only
   * when updateLocationName reports 200 (it never reports 201) is the
   * Village_Code read, a missing one throwing, and the village relinked.
   */
  method RenameAndRelink(reg: Registry, location: Location, expected: string, parentUuid: Option<string>, rec: Record,
                         ghost v0: LocationValue, ghost hasCode: bool, ghost at: nat)
    returns (r: Result<()>)
    requires v0 == location.Value() && hasCode == HasCode(location) && at == |reg.server.sent|
    modifies reg, reg.server, location
    ensures reg.allLocations == old(reg.allLocations) && reg.locationCache == old(reg.locationCache)
    ensures r.Threw? <==> Stopped(reg.server.script, at, 10, UntilOk) && "Village_Code" !in rec
    ensures r.Threw? ==> r.error == MissingJsonKey
    ensures location.locationId == v0.locationId && location.tags == v0.tags && location.identifiers == v0.identifiers
    ensures location.name == if Stopped(reg.server.script, at, 10, UntilOk) then Some(expected) else v0.name
    ensures reg.server.sent == old(reg.server.sent) +
      VisitLog(reg.server.script, at, hasCode, v0.locationId, expected, reg.codeType, rec, parentUuid)
    ensures location.attributes ==
      if CodeAdded(reg.server.script, at, hasCode, rec)
      then Some(Lazy(v0.attributes)[AttributeKey(reg.codeType, reg.hfrCodeType) := rec["Village_Code"]])
      else v0.attributes
    ensures location.parentLocation ==
      if Reparented(reg.server.script, at, hasCode, rec) then reg.FindLocationByUuid(parentUuid)
      else v0.parentLocation
    ensures reg.codeCache ==
      if CodeAdded(reg.server.script, at, hasCode, rec)
      then old(reg.codeCache)[ToLower(rec["Village_Code"]) := location]
      else old(reg.codeCache)
  {
    var response := RenameVillage(reg, location, expected, v0, at);
    ghost var mid := reg.server.sent;
    ghost var renames := Repeat(RenameRequest(v0.locationId, expected), Attempts(reg.server.script, at, 10, UntilOk));
    if response == 200 || response == 201 {
      r := RelinkRenamed(reg, location, parentUuid, rec, location.Value(), hasCode, RenameEnd(reg.server.script, at));
      AppendTwice(old(reg.server.sent), renames,
                  if "Village_Code" in rec
                  then RelinkLog(reg.server.script, RenameEnd(reg.server.script, at), hasCode, v0.locationId, reg.codeType,
                                 rec["Village_Code"], parentUuid)
                  else [], mid, reg.server.sent);
    } else {
      AppendTwice(old(reg.server.sent), renames, [], mid, reg.server.sent);
      r := Ok(());
    }
  }

  /**
   * The body of getChildLocation's loop for one node, stated over the node's
   * value `v0` before the visit, whether it had a Code (`hasCode`) and the
   * log position `at`. A node the visit does not rename is left alone, and
   * the visit throws exactly when VisitThrows says so; a renamed village
   * goes through RenameAndRelink.
   */
  method VisitChild(reg: Registry, location: Location, uuid: Option<string>, parentUuid: Option<string>, rec: Record,
                    ghost v0: LocationValue, ghost hasCode: bool, ghost at: nat)
    returns (r: Result<()>)
    requires v0 == location.Value() && hasCode == HasCode(location) && at == |reg.server.sent|
    modifies reg, reg.server, if ChildVillage(location, uuid) then {location} else {}
    ensures reg.allLocations == old(reg.allLocations) && reg.locationCache == old(reg.locationCache)
    ensures r.Threw? <==>
      old(VisitThrows(location, uuid, rec)) ||
      (old(Renames(location, uuid, rec)) && Stopped(reg.server.script, at, 10, UntilOk) && "Village_Code" !in rec)
    ensures r.Threw? ==> r.error == NullPointer || r.error == MissingJsonKey
    ensures !old(Renames(location, uuid, rec)) ==>
      reg.server.sent == old(reg.server.sent) && location.Value() == v0 && reg.codeCache == old(reg.codeCache)
    ensures old(Renames(location, uuid, rec)) ==>
      reg.server.sent == old(reg.server.sent) +
        VisitLog(reg.server.script, at, hasCode, v0.locationId, ExpectedName(rec).value, reg.codeType, rec, parentUuid)
    ensures location.locationId == v0.locationId && location.tags == v0.tags && location.identifiers == v0.identifiers
    ensures old(Renames(location, uuid, rec)) ==>
      location.name == if Stopped(reg.server.script, at, 10, UntilOk) then Some(ExpectedName(rec).value) else v0.name
    ensures old(Renames(location, uuid, rec)) ==>
      location.attributes ==
        if CodeAdded(reg.server.script, at, hasCode, rec)
        then Some(Lazy(v0.attributes)[AttributeKey(reg.codeType, reg.hfrCodeType) := rec["Village_Code"]])
        else v0.attributes
    ensures old(Renames(location, uuid, rec)) ==>
      location.parentLocation ==
        if Reparented(reg.server.script, at, hasCode, rec) then reg.FindLocationByUuid(parentUuid) else v0.parentLocation
    ensures old(Renames(location, uuid, rec)) ==>
      reg.codeCache ==
        if CodeAdded(reg.server.script, at, hasCode, rec)
        then old(reg.codeCache)[ToLower(rec["Village_Code"]) := location]
        else old(reg.codeCache)
  {
    if location.locationId.None? || location.parentLocation == null {
      return Ok(());
    }
    var parentId := location.parentLocation.locationId;
    if parentId.None? {
      return Threw(NullPointer);
    }
    if uuid.None? || !EqualsIgnoreCase(parentId.value, uuid.value) {
      return Ok(());
    }
    if location.tags.None? || "Village" !in location.tags.value {
      return Ok(());
    }
    var expected := ExpectedName(rec);
    if expected.Threw? {
      return Threw(expected.error);
    }
    if location.name.None? {
      return Threw(NullPointer);
    }
    if EqualsIgnoreCase(location.name.value, expected.value) {
      return Ok(());
    }
    r := RenameAndRelink(reg, location, expected.value, parentUuid, rec, v0, hasCode, at);
  }

  /** The village children of `uuid` in the node list: the only nodes getChildLocation may change. */
  ghost function ChildVillages(reg: Registry, uuid: Option<string>): set<Location>
    reads reg, reg.allLocations, set l | l in reg.allLocations :: l.parentLocation
  {
    set l | l in reg.allLocations && ChildVillage(l, uuid)
  }

  /**
   * A request getChildLocation may send for record `rec`, always about a
   * node whose id is in `ids`: a rename to the expected name, a Code write
   * of the record's Village_Code with the general code type, or a reparent
   * to `parentUuid`.
   */
  ghost predicate RealignRequest(q: Request, ids: set<Option<string>>, rec: Record, codeType: string,
                                 parentUuid: Option<string>)
  {
    match q
    case RenameRequest(id, newName) => id in ids && ExpectedName(rec).Ok? && newName == ExpectedName(rec).value
    case AttributeRequest(id, attributeType, value) =>
      id in ids && attributeType == codeType && "Village_Code" in rec && value == rec["Village_Code"]
    case ReparentRequest(id, newParent) => id in ids && newParent == parentUuid
    case _ => false
  }

  /** Every request logged from position `from` on is one getChildLocation may send. */
  ghost predicate RealignsOnly(log: seq<Request>, from: nat, ids: set<Option<string>>, rec: Record, codeType: string,
                               parentUuid: Option<string>)
  {
    from <= |log| && forall k :: from <= k < |log| ==> RealignRequest(log[k], ids, rec, codeType, parentUuid)
  }

  /** The visit of a village to rename sends only requests getChildLocation may send. */
  lemma {:induction false} VisitLogRealigns(script: nat -> Reply, at: nat, hasCode: bool, id: Option<string>, rec: Record,
                                            codeType: string, parentUuid: Option<string>, ids: set<Option<string>>)
    requires id in ids && ExpectedName(rec).Ok?
    ensures RealignsOnly(VisitLog(script, at, hasCode, id, ExpectedName(rec).value, codeType, rec, parentUuid), 0,
                         ids, rec, codeType, parentUuid)
  {
    var expected := ExpectedName(rec).value;
    var renames := Repeat(RenameRequest(id, expected), Attempts(script, at, 10, UntilOk));
    var log := VisitLog(script, at, hasCode, id, expected, codeType, rec, parentUuid);
    forall k | 0 <= k < |log| ensures RealignRequest(log[k], ids, rec, codeType, parentUuid) {
      if k < |renames| {
        assert log[k] == renames[k];
      } else {
        var start := RenameEnd(script, at);
        var adds := Repeat(AttributeRequest(id, codeType, rec["Village_Code"]), AddTries(script, start, hasCode));
        var moves := Repeat(ReparentRequest(id, parentUuid), Attempts(script, ReparentStart(script, start, hasCode), 10, UntilOk));
        assert log == renames + (adds + moves);
        var j := k - |renames|;
        assert log[k] == (adds + moves)[j];
        if j < |adds| {
          assert log[k] == adds[j];
        } else {
          assert log[k] == moves[j - |adds|];
        }
      }
    }
  }

  /** A log that grows by requests getChildLocation may send keeps its earlier part and the property. */
  lemma {:induction false} RealignsExtend(log: seq<Request>, mid: seq<Request>, extra: seq<Request>, now: seq<Request>,
                                          ids: set<Option<string>>, rec: Record, codeType: string, parentUuid: Option<string>)
    requires |mid| >= |log| && mid[..|log|] == log && RealignsOnly(mid, |log|, ids, rec, codeType, parentUuid)
    requires now == mid + extra && RealignsOnly(extra, 0, ids, rec, codeType, parentUuid)
    ensures |now| >= |log| && now[..|log|] == log && RealignsOnly(now, |log|, ids, rec, codeType, parentUuid)
  {
    assert now[..|log|] == mid[..|log|];
    forall k | |log| <= k < |now| ensures RealignRequest(now[k], ids, rec, codeType, parentUuid) {
      if k < |mid| {
        assert now[k] == mid[k];
      } else {
        assert now[k] == extra[k - |mid|];
      }
    }
  }

  /**
   * A node value `now` reached from `before` by visits of getChildLocation:
   * a node not due a rename is unchanged; otherwise the id, tags and
   * identifiers are kept; the name is kept or is the expected one; the
   * parent is kept or is `newParent`; the attribute map is kept or gains
   * the record's Village_Code under `key`; and the parent or the attributes
   * change only once the node carries the expected name.
   */
  ghost predicate Realigned(now: LocationValue, before: LocationValue, rec: Record, newParent: Location?, key: string)
  {
    (!RenameDue(before, rec) ==> now == before) &&
    now.locationId == before.locationId && now.tags == before.tags && now.identifiers == before.identifiers &&
    (now.name == before.name || (ExpectedName(rec).Ok? && now.name == Some(ExpectedName(rec).value))) &&
    (now.parentLocation == before.parentLocation || now.parentLocation == newParent) &&
    (now.attributes == before.attributes ||
     ("Village_Code" in rec && now.attributes == Some(Lazy(before.attributes)[key := rec["Village_Code"]]))) &&
    (now.parentLocation != before.parentLocation || now.attributes != before.attributes ==>
       ExpectedName(rec).Ok? && now.name == Some(ExpectedName(rec).value))
  }

  /**
   * The value `now` a village due a rename reaches from `before` once the
   * rename, the Code write and the reparent are each accepted: it carries
   * the expected name and the parent `newParent`, and its attribute map
   * gains the record's Village_Code under `key` unless it had a Code.
   */
  ghost predicate Settled(now: LocationValue, before: LocationValue, rec: Record, newParent: Location?, key: string)
  {
    ExpectedName(rec).Ok? && "Village_Code" in rec &&
    now.name == Some(ExpectedName(rec).value) && now.parentLocation == newParent &&
    now.attributes ==
      if before.attributes.Some? && "Code" in before.attributes.value then before.attributes
      else Some(Lazy(before.attributes)[key := rec["Village_Code"]])
  }

  /**
   * When every reply from `at` on is a 200, the rename of a visit starting
   * at `at` is accepted at once, the Code write follows exactly when the
   * node had no Code, and the reparent follows whenever the record carries
   * a Village_Code.
   */
  lemma AcceptedVisit(script: nat -> Reply, at: nat, hasCode: bool, rec: Record)
    requires AllAccepted(script, at)
    ensures Stopped(script, at, 10, UntilOk)
    ensures CodeAdded(script, at, hasCode, rec) <==> "Village_Code" in rec && !hasCode
    ensures Reparented(script, at, hasCode, rec) <==> "Village_Code" in rec
  {
    OneAttemptWhenFirstStops(script, at, 10, UntilOk);
    OneAttemptWhenFirstStops(script, at + 1, 3, UntilOk);
    OneAttemptWhenFirstStops(script, ReparentStart(script, at + 1, hasCode), 10, UntilOk);
  }

  /** The node `t` is realigned from its earlier value `before`. */
  ghost predicate RealignedNode(t: Location, before: LocationValue, rec: Record, newParent: Location?, key: string)
    reads t
  {
    Realigned(t.Value(), before, rec, newParent, key)
  }

  /** Two rounds of realignment are one: writing the same Code twice is writing it once. */
  lemma RealignedTwice(a: LocationValue, b: LocationValue, c: LocationValue, rec: Record, newParent: Location?, key: string)
    requires Realigned(a, b, rec, newParent, key) && Realigned(b, c, rec, newParent, key)
    ensures Realigned(a, c, rec, newParent, key)
  {
    if "Village_Code" in rec && b.attributes == Some(Lazy(c.attributes)[key := rec["Village_Code"]]) &&
       a.attributes == Some(Lazy(b.attributes)[key := rec["Village_Code"]]) {
      var m := Lazy(c.attributes)[key := rec["Village_Code"]];
      assert m[key := rec["Village_Code"]] == m;
    }
  }

  /**
   * The code index, starting from `c0`, changed at most at the record's
   * lower-cased Village_Code, where it now holds one of `targets`.
   */
  ghost predicate CacheFrom(c0: map<string, Location>, c: map<string, Location>, rec: Record, targets: set<Location>)
  {
    c == c0 ||
    ("Village_Code" in rec && ToLower(rec["Village_Code"]) in c &&
     c == c0[ToLower(rec["Village_Code"]) := c[ToLower(rec["Village_Code"])]] && c[ToLower(rec["Village_Code"])] in targets)
  }

  /** Filing one more target under the record's code keeps the index within CacheFrom. */
  lemma CacheFromStep(c0: map<string, Location>, c: map<string, Location>, rec: Record, targets: set<Location>, x: Location)
    requires CacheFrom(c0, c, rec, targets) && "Village_Code" in rec && x in targets
    ensures CacheFrom(c0, c[ToLower(rec["Village_Code"]) := x], rec, targets)
  {
    var k := ToLower(rec["Village_Code"]);
    if c != c0 {
      assert c[k := x] == c0[k := x];
    }
  }

  /** Logs whose earlier parts each carry RealignsOnly from their start chain into one. */
  lemma {:induction false} RealignsJoin(log: seq<Request>, mid: seq<Request>, now: seq<Request>,
                                        ids: set<Option<string>>, rec: Record, codeType: string, parentUuid: Option<string>)
    requires |mid| >= |log| && mid[..|log|] == log && RealignsOnly(mid, |log|, ids, rec, codeType, parentUuid)
    requires |now| >= |mid| && now[..|mid|] == mid && RealignsOnly(now, |mid|, ids, rec, codeType, parentUuid)
    ensures |now| >= |log| && now[..|log|] == log && RealignsOnly(now, |log|, ids, rec, codeType, parentUuid)
  {
    assert now[..|log|] == now[..|mid|][..|log|];
    forall k | |log| <= k < |now| ensures RealignRequest(now[k], ids, rec, codeType, parentUuid) {
      if k < |mid| {
        assert now[k] == now[..|mid|][k];
      }
    }
  }

  /**
   * VisitChild stated in the terms the walk keeps: the node is realigned
   * from its value `v0`, the log grows only by requests getChildLocation may
   * send, and the code index changes at most at the Village_Code, to this
   * node, which is then one of `targets`. A node the visit does not rename
   * is left alone; one it renames is Settled when every reply from `at` on
   * is a 200 and the visit does not throw.
   */
  method VisitChecked(reg: Registry, location: Location, uuid: Option<string>, parentUuid: Option<string>, rec: Record,
                      ghost v0: LocationValue, ghost targets: set<Location>, ghost ids: set<Option<string>>, ghost at: nat,
                      ghost b: LocationValue, ghost newParent: Location?)
    returns (r: Result<()>)
    requires v0 == location.Value() && at == |reg.server.sent|
    requires ChildVillage(location, uuid) ==> location in targets && v0.locationId in ids
    requires newParent == reg.FindLocationByUuid(parentUuid)
    requires location in targets ==> RealignedNode(location, b, rec, newParent, AttributeKey(reg.codeType, reg.hfrCodeType))
    modifies reg, reg.server, if ChildVillage(location, uuid) then {location} else {}
    ensures reg.allLocations == old(reg.allLocations) && reg.locationCache == old(reg.locationCache)
    ensures location.locationId == v0.locationId
    ensures location in targets ==> RealignedNode(location, b, rec, newParent, AttributeKey(reg.codeType, reg.hfrCodeType))
    ensures location !in targets ==> location.Value() == v0
    ensures |reg.server.sent| >= at && reg.server.sent[..at] == old(reg.server.sent)
    ensures RealignsOnly(reg.server.sent, at, ids, rec, reg.codeType, parentUuid)
    ensures ExpectedName(rec).Threw? ==> reg.server.sent == old(reg.server.sent)
    ensures reg.codeCache == old(reg.codeCache) ||
            ("Village_Code" in rec && location in targets &&
             reg.codeCache == old(reg.codeCache)[ToLower(rec["Village_Code"]) := location])
    ensures r.Threw? ==> r.error == NullPointer || r.error == MissingJsonKey
    ensures old(Renames(location, uuid, rec)) ==>
      SentSince(reg.server.sent, at, RenameRequest(v0.locationId, ExpectedName(rec).value))
    ensures !old(Renames(location, uuid, rec)) ==> location.Value() == v0
    ensures old(Renames(location, uuid, rec)) && AllAccepted(reg.server.script, at) && r.Ok? ==>
      Settled(location.Value(), v0, rec, newParent, AttributeKey(reg.codeType, reg.hfrCodeType))
  {
    ghost var renames := Renames(location, uuid, rec);
    ghost var hasCode := HasCode(location);
    r := VisitChild(reg, location, uuid, parentUuid, rec, v0, hasCode, at);
    if renames && AllAccepted(reg.server.script, at) {
      AcceptedVisit(reg.server.script, at, hasCode, rec);
    }
    if renames {
      VisitLogRealigns(reg.server.script, at, hasCode, v0.locationId, rec, reg.codeType, parentUuid, ids);
      ghost var extra := VisitLog(reg.server.script, at, hasCode, v0.locationId, ExpectedName(rec).value, reg.codeType, rec, parentUuid);
      assert reg.server.sent[..at] == old(reg.server.sent);
      forall k | at <= k < |reg.server.sent| ensures RealignRequest(reg.server.sent[k], ids, rec, reg.codeType, parentUuid) {
        assert reg.server.sent[k] == extra[k - at];
      }
      SentSinceRepeat(old(reg.server.sent), at, RenameRequest(v0.locationId, ExpectedName(rec).value),
                      Attempts(reg.server.script, at, 10, UntilOk),
                      if Relinked(reg.server.script, at, rec)
                      then RelinkLog(reg.server.script, RenameEnd(reg.server.script, at), hasCode, v0.locationId, reg.codeType,
                                     rec["Village_Code"], parentUuid)
                      else [], reg.server.sent);
    }
    if location in targets {
      RealignedTwice(location.Value(), v0, b, rec, newParent, AttributeKey(reg.codeType, reg.hfrCodeType));
    }
  }

  /**
   * What getChildLocation's loop keeps after the first `i` nodes, against
   * the values `before` of the targets and the log `log` at the start: a
   * target not reached yet is unchanged and still a village child of
   * `uuid`, and a target reached that was due a rename has been sent it.
   */
  ghost predicate Reached(reg: Registry, i: nat, uuid: Option<string>, rec: Record, targets: set<Location>,
                          before: map<Location, LocationValue>, log: seq<Request>)
    requires i <= |reg.allLocations|
    requires forall t :: t in targets ==> t in before
    reads reg, reg.server, targets, set t | t in targets :: t.parentLocation
  {
    (forall t :: t in targets && t !in reg.allLocations[..i] ==> t.Value() == before[t] && ChildVillage(t, uuid)) &&
    (forall t :: t in targets && t in reg.allLocations[..i] && RenameDue(before[t], rec) ==>
       SentSince(reg.server.sent, |log|, RenameRequest(before[t].locationId, ExpectedName(rec).value)))
  }

  /** The values of the nodes `targets` in the current state. */
  ghost function Values(targets: set<Location>): map<Location, LocationValue>
    reads targets
  {
    map t | t in targets :: t.Value()
  }

  /**
   * Against their values `before` at the start, every target in `prefix`
   * that was due a rename has the value Settled in `now`.
   */
  ghost predicate SettledUpTo(prefix: seq<Location>, rec: Record, targets: set<Location>,
                              before: map<Location, LocationValue>, now: map<Location, LocationValue>,
                              newParent: Location?, key: string)
    requires forall t :: t in targets ==> t in before
  {
    forall t :: t in targets && t in prefix && RenameDue(before[t], rec) ==>
      t in now && Settled(now[t], before[t], rec, newParent, key)
  }

  /**
   * What getChildLocation's loop keeps after the first `i` nodes when every
   * reply is a 200 and no visit threw: each target reached that was due a
   * rename, against its value `before` at the start, is Settled.
   */
  ghost predicate ReachedSettled(reg: Registry, i: nat, rec: Record, targets: set<Location>,
                                 before: map<Location, LocationValue>, newParent: Location?)
    requires i <= |reg.allLocations|
    requires forall t :: t in targets ==> t in before
    reads reg, targets
  {
    SettledUpTo(reg.allLocations[..i], rec, targets, before, Values(targets), newParent,
                AttributeKey(reg.codeType, reg.hfrCodeType))
  }

  /**
   * SettledUpTo carries over the visit of `location`, from the target
   * values `pre` to `post`: the visit leaves every other target alone,
   * changes `location` only when it renames it (`renamed`), and then leaves
   * it Settled. A target visited before already carries the expected name,
   * so a second visit does not rename it again.
   */
  lemma SettledStep(prefix: seq<Location>, location: Location, rec: Record, targets: set<Location>,
                    before: map<Location, LocationValue>, pre: map<Location, LocationValue>,
                    post: map<Location, LocationValue>, newParent: Location?, key: string, renamed: bool)
    requires forall t :: t in targets ==> t in before && t in pre && t in post
    requires SettledUpTo(prefix, rec, targets, before, pre, newParent, key)
    requires forall t :: t in targets && t != location ==> post[t] == pre[t]
    requires location in targets && location !in prefix ==>
      pre[location] == before[location] && (RenameDue(before[location], rec) ==> renamed)
    requires location in targets && !renamed ==> post[location] == pre[location]
    requires location in targets && renamed ==>
      RenameDue(pre[location], rec) && Settled(post[location], pre[location], rec, newParent, key)
    ensures SettledUpTo(prefix + [location], rec, targets, before, post, newParent, key)
  {
    forall t | t in targets && t in prefix + [location] && RenameDue(before[t], rec)
      ensures Settled(post[t], before[t], rec, newParent, key)
    {
      if t != location {
        assert t in prefix;
      } else if t in prefix {
        assert !RenameDue(pre[t], rec);
      }
    }
  }

  /**
   * The visit of node `i`, stated over what the walk keeps: the targets
   * `targets` with their values `before` at the start and their old ids
   * `ids`, the log `log` and code index `c0` at the start, and the new
   * parent `newParent` the reparent writes. Only the visited node may
   * change, and only when the visit renames it; a visit that renames sends
   * the rename, and leaves the node Settled when every reply from its start
   * is a 200 and it does not throw.
   */
  method VisitKept(reg: Registry, i: nat, uuid: Option<string>, parentUuid: Option<string>, rec: Record,
                   ghost targets: set<Location>, ghost before: map<Location, LocationValue>, ghost ids: set<Option<string>>,
                   ghost log: seq<Request>, ghost c0: map<string, Location>, ghost newParent: Location?)
    returns (r: Result<()>)
    requires i < |reg.allLocations|
    requires forall t :: t in targets ==> t in before && before[t].locationId in ids
    requires forall l :: l in reg.allLocations && ChildVillage(l, uuid) ==> l in targets
    requires forall t :: t in targets ==>
      RealignedNode(t, before[t], rec, newParent, AttributeKey(reg.codeType, reg.hfrCodeType))
    requires newParent == reg.FindLocationByUuid(parentUuid)
    requires |reg.server.sent| >= |log| && reg.server.sent[..|log|] == log
    requires RealignsOnly(reg.server.sent, |log|, ids, rec, reg.codeType, parentUuid)
    requires ExpectedName(rec).Threw? ==> reg.server.sent == log
    requires CacheFrom(c0, reg.codeCache, rec, targets)
    modifies reg, reg.server, targets
    ensures reg.allLocations == old(reg.allLocations) && reg.locationCache == old(reg.locationCache)
    ensures forall l :: l in reg.allLocations && ChildVillage(l, uuid) ==> l in targets
    ensures forall t :: t in targets ==>
      RealignedNode(t, before[t], rec, newParent, AttributeKey(reg.codeType, reg.hfrCodeType))
    ensures |reg.server.sent| >= |log| && reg.server.sent[..|log|] == log
    ensures RealignsOnly(reg.server.sent, |log|, ids, rec, reg.codeType, parentUuid)
    ensures ExpectedName(rec).Threw? ==> reg.server.sent == log
    ensures CacheFrom(c0, reg.codeCache, rec, targets)
    ensures r.Threw? ==> r.error == NullPointer || r.error == MissingJsonKey
    ensures old(reg.Valid()) ==> reg.Valid()
    ensures forall t :: t in targets && t != reg.allLocations[i] ==> t.Value() == old(t.Value())
    ensures reg.allLocations[i].locationId == old(reg.allLocations[i].locationId)
    ensures |reg.server.sent| >= |old(reg.server.sent)| && reg.server.sent[..|old(reg.server.sent)|] == old(reg.server.sent)
    ensures old(Renames(reg.allLocations[i], uuid, rec)) ==>
      SentSince(reg.server.sent, |old(reg.server.sent)|, RenameRequest(old(reg.allLocations[i].locationId), ExpectedName(rec).value))
    ensures !old(Renames(reg.allLocations[i], uuid, rec)) ==> reg.allLocations[i].Value() == old(reg.allLocations[i].Value())
    ensures old(Renames(reg.allLocations[i], uuid, rec)) && AllAccepted(reg.server.script, |old(reg.server.sent)|) && r.Ok? ==>
      Settled(reg.allLocations[i].Value(), old(reg.allLocations[i].Value()), rec, newParent,
              AttributeKey(reg.codeType, reg.hfrCodeType))
  {
    var location := reg.allLocations[i];
    ghost var v0 := location.Value();
    ghost var mid := reg.server.sent;
    ghost var inTargets := location in targets;
    ghost var b := if inTargets then before[location] else v0;
    r := VisitChecked(reg, location, uuid, parentUuid, rec, v0, targets, ids, |mid|, b, newParent);
    RealignsJoin(log, mid, reg.server.sent, ids, rec, reg.codeType, parentUuid);
    if reg.codeCache != old(reg.codeCache) {
      CacheFromStep(c0, old(reg.codeCache), rec, targets, location);
    }
    forall l | l in reg.allLocations && ChildVillage(l, uuid) ensures l in targets {
      if l != location {
        assert old(ChildVillage(l, uuid));
      }
    }
    forall t | t in targets && t != location
      ensures RealignedNode(t, before[t], rec, newParent, AttributeKey(reg.codeType, reg.hfrCodeType))
    {
    }
  }

  /**
   * One turn of getChildLocation's loop, stated over what the walk keeps:
   * the targets `targets` with their values `before` at the start and their
   * old ids `ids`, the log `log` and code index `c0` at the start, and the
   * new parent `newParent` the reparent writes. Only node `i` may change,
   * only when the turn renames it, and it is then Settled when every reply
   * from the turn's start is a 200 and the turn does not throw.
   */
  method VisitNext(reg: Registry, i: nat, uuid: Option<string>, parentUuid: Option<string>, rec: Record,
                   ghost targets: set<Location>, ghost before: map<Location, LocationValue>, ghost ids: set<Option<string>>,
                   ghost log: seq<Request>, ghost c0: map<string, Location>, ghost newParent: Location?)
    returns (r: Result<()>)
    requires i < |reg.allLocations|
    requires forall t :: t in targets ==> t in before && before[t].locationId in ids
    requires forall l :: l in reg.allLocations && ChildVillage(l, uuid) ==> l in targets
    requires forall t :: t in targets ==>
      RealignedNode(t, before[t], rec, newParent, AttributeKey(reg.codeType, reg.hfrCodeType))
    requires newParent == reg.FindLocationByUuid(parentUuid)
    requires |reg.server.sent| >= |log| && reg.server.sent[..|log|] == log
    requires RealignsOnly(reg.server.sent, |log|, ids, rec, reg.codeType, parentUuid)
    requires ExpectedName(rec).Threw? ==> reg.server.sent == log
    requires CacheFrom(c0, reg.codeCache, rec, targets)
    requires Reached(reg, i, uuid, rec, targets, before, log)
    modifies reg, reg.server, targets
    ensures reg.allLocations == old(reg.allLocations) && reg.locationCache == old(reg.locationCache)
    ensures Reached(reg, i + 1, uuid, rec, targets, before, log)
    ensures forall t :: t in targets && t != reg.allLocations[i] ==> t.Value() == old(t.Value())
    ensures !old(Renames(reg.allLocations[i], uuid, rec)) ==> reg.allLocations[i].Value() == old(reg.allLocations[i].Value())
    ensures old(Renames(reg.allLocations[i], uuid, rec)) && AllAccepted(reg.server.script, |old(reg.server.sent)|) && r.Ok? ==>
      Settled(reg.allLocations[i].Value(), old(reg.allLocations[i].Value()), rec, newParent,
              AttributeKey(reg.codeType, reg.hfrCodeType))
    ensures forall l :: l in reg.allLocations && ChildVillage(l, uuid) ==> l in targets
    ensures forall t :: t in targets ==>
      RealignedNode(t, before[t], rec, newParent, AttributeKey(reg.codeType, reg.hfrCodeType))
    ensures |reg.server.sent| >= |log| && reg.server.sent[..|log|] == log
    ensures RealignsOnly(reg.server.sent, |log|, ids, rec, reg.codeType, parentUuid)
    ensures ExpectedName(rec).Threw? ==> reg.server.sent == log
    ensures CacheFrom(c0, reg.codeCache, rec, targets)
    ensures r.Threw? ==> r.error == NullPointer || r.error == MissingJsonKey
    ensures old(reg.Valid()) ==> reg.Valid()
  {
    var location := reg.allLocations[i];
    ghost var mid := reg.server.sent;
    ghost var v0 := location.Value();
    ghost var firstVisit := location in targets && location !in reg.allLocations[..i];
    r := VisitKept(reg, i, uuid, parentUuid, rec, targets, before, ids, log, c0, newParent);
    assert reg.allLocations[..i + 1] == reg.allLocations[..i] + [location];
    forall t | t in targets && t !in reg.allLocations[..i + 1]
      ensures t.Value() == before[t] && ChildVillage(t, uuid)
    {
      assert old(ChildVillage(t, uuid));
    }
    forall t | t in targets && t in reg.allLocations[..i + 1] && RenameDue(before[t], rec)
      ensures SentSince(reg.server.sent, |log|, RenameRequest(before[t].locationId, ExpectedName(rec).value))
    {
      if t in reg.allLocations[..i] {
        SentSinceKept(mid, reg.server.sent, |log|, RenameRequest(before[t].locationId, ExpectedName(rec).value));
      } else {
        assert t == location && firstVisit;
        var k :| |mid| <= k < |reg.server.sent| && reg.server.sent[k] == RenameRequest(v0.locationId, ExpectedName(rec).value);
      }
    }
  }

  /** The ids, before the walk, of the village children of `uuid`. */
  ghost function TargetIds(reg: Registry, uuid: Option<string>): set<Option<string>>
    reads reg, reg.allLocations, set l | l in reg.allLocations :: l.parentLocation
  {
    set t | t in ChildVillages(reg, uuid) :: t.locationId
  }

  /**
   * One turn of getChildLocation's loop with what it keeps when every reply
   * from the walk's start is a 200: VisitNext, after which every target
   * reached that was due a rename is Settled.
   */
  method WalkTurn(reg: Registry, i: nat, uuid: Option<string>, parentUuid: Option<string>, rec: Record,
                  ghost targets: set<Location>, ghost before: map<Location, LocationValue>, ghost ids: set<Option<string>>,
                  ghost log: seq<Request>, ghost c0: map<string, Location>, ghost newParent: Location?)
    returns (r: Result<()>)
    requires i < |reg.allLocations|
    requires forall t :: t in targets ==> t in before && before[t].locationId in ids
    requires forall l :: l in reg.allLocations && ChildVillage(l, uuid) ==> l in targets
    requires forall t :: t in targets ==>
      RealignedNode(t, before[t], rec, newParent, AttributeKey(reg.codeType, reg.hfrCodeType))
    requires newParent == reg.FindLocationByUuid(parentUuid)
    requires |reg.server.sent| >= |log| && reg.server.sent[..|log|] == log
    requires RealignsOnly(reg.server.sent, |log|, ids, rec, reg.codeType, parentUuid)
    requires ExpectedName(rec).Threw? ==> reg.server.sent == log
    requires CacheFrom(c0, reg.codeCache, rec, targets)
    requires Reached(reg, i, uuid, rec, targets, before, log)
    requires AllAccepted(reg.server.script, |log|) ==> ReachedSettled(reg, i, rec, targets, before, newParent)
    modifies reg, reg.server, targets
    ensures reg.allLocations == old(reg.allLocations) && reg.locationCache == old(reg.locationCache)
    ensures Reached(reg, i + 1, uuid, rec, targets, before, log)
    ensures forall l :: l in reg.allLocations && ChildVillage(l, uuid) ==> l in targets
    ensures forall t :: t in targets ==>
      RealignedNode(t, before[t], rec, newParent, AttributeKey(reg.codeType, reg.hfrCodeType))
    ensures |reg.server.sent| >= |log| && reg.server.sent[..|log|] == log
    ensures RealignsOnly(reg.server.sent, |log|, ids, rec, reg.codeType, parentUuid)
    ensures ExpectedName(rec).Threw? ==> reg.server.sent == log
    ensures CacheFrom(c0, reg.codeCache, rec, targets)
    ensures r.Threw? ==> r.error == NullPointer || r.error == MissingJsonKey
    ensures old(reg.Valid()) ==> reg.Valid()
    ensures r.Ok? && AllAccepted(reg.server.script, |log|) ==> ReachedSettled(reg, i + 1, rec, targets, before, newParent)

  {
    var location := reg.allLocations[i];
    assert reg.allLocations[..i + 1] == reg.allLocations[..i] + [location];
    ghost var pre := Values(targets);
    ghost var renamed := Renames(location, uuid, rec);
    ghost var at := |reg.server.sent|;
    assert location in targets && location !in reg.allLocations[..i] ==>
      pre[location] == before[location] && (RenameDue(before[location], rec) ==> renamed);
    r := VisitNext(reg, i, uuid, parentUuid, rec, targets, before, ids, log, c0, newParent);
    if r.Ok? && AllAccepted(reg.server.script, |log|) {
      assert AllAccepted(reg.server.script, at);
      SettledStep(reg.allLocations[..i], location, rec, targets, before, pre, Values(targets), newParent,
                  AttributeKey(reg.codeType, reg.hfrCodeType), renamed);
    }
  }

  /**
   * getChildLocation's loop, stated over the snapshots WalkTurn keeps:
   * when it ends without a throw, every target due a rename was sent it,
   * and is Settled when every reply from the start was a 200.
   */
  method WalkChildren(reg: Registry, uuid: Option<string>, parentUuid: Option<string>, rec: Record,
                      ghost targets: set<Location>, ghost before: map<Location, LocationValue>, ghost ids: set<Option<string>>,
                      ghost log: seq<Request>, ghost c0: map<string, Location>, ghost newParent: Location?)
    returns (r: Result<()>)
    requires forall t :: t in targets ==> t in before && before[t].locationId in ids
    requires forall l :: l in reg.allLocations && ChildVillage(l, uuid) ==> l in targets
    requires forall t :: t in targets ==>
      RealignedNode(t, before[t], rec, newParent, AttributeKey(reg.codeType, reg.hfrCodeType))
    requires newParent == reg.FindLocationByUuid(parentUuid)
    requires reg.server.sent == log && reg.codeCache == c0
    requires forall t :: t in targets ==> t.Value() == before[t] && ChildVillage(t, uuid)
    modifies reg, reg.server, targets
    ensures reg.allLocations == old(reg.allLocations) && reg.locationCache == old(reg.locationCache)
    ensures forall t :: t in targets ==>
      RealignedNode(t, before[t], rec, newParent, AttributeKey(reg.codeType, reg.hfrCodeType))
    ensures |reg.server.sent| >= |log| && reg.server.sent[..|log|] == log
    ensures RealignsOnly(reg.server.sent, |log|, ids, rec, reg.codeType, parentUuid)
    ensures ExpectedName(rec).Threw? ==> reg.server.sent == log
    ensures CacheFrom(c0, reg.codeCache, rec, targets)
    ensures r.Threw? ==> r.error == NullPointer || r.error == MissingJsonKey
    ensures old(reg.Valid()) ==> reg.Valid()
    ensures r.Ok? ==> forall t :: t in targets && t in reg.allLocations && RenameDue(before[t], rec) ==>
      SentSince(reg.server.sent, |log|, RenameRequest(before[t].locationId, ExpectedName(rec).value))
    ensures r.Ok? && AllAccepted(reg.server.script, |log|) ==>
      forall t :: t in targets && t in reg.allLocations && RenameDue(before[t], rec) ==>
        Settled(t.Value(), before[t], rec, newParent, AttributeKey(reg.codeType, reg.hfrCodeType))
  {
    var i := 0;
    while i < |reg.allLocations|
      invariant 0 <= i <= |reg.allLocations|
      invariant reg.allLocations == old(reg.allLocations) && reg.locationCache == old(reg.locationCache)
      invariant forall l :: l in reg.allLocations && ChildVillage(l, uuid) ==> l in targets
      invariant forall t :: t in targets ==>
        RealignedNode(t, before[t], rec, newParent, AttributeKey(reg.codeType, reg.hfrCodeType))
      invariant newParent == reg.FindLocationByUuid(parentUuid)
      invariant |reg.server.sent| >= |log| && reg.server.sent[..|log|] == log
      invariant RealignsOnly(reg.server.sent, |log|, ids, rec, reg.codeType, parentUuid)
      invariant ExpectedName(rec).Threw? ==> reg.server.sent == log
      invariant CacheFrom(c0, reg.codeCache, rec, targets)
      invariant old(reg.Valid()) ==> reg.Valid()
      invariant Reached(reg, i, uuid, rec, targets, before, log)
      invariant AllAccepted(reg.server.script, |log|) ==> ReachedSettled(reg, i, rec, targets, before, newParent)
    {
      r := WalkTurn(reg, i, uuid, parentUuid, rec, targets, before, ids, log, c0, newParent);
      if r.Threw? {
        return;
      }
      i := i + 1;
    }
    r := Ok(());
    assert reg.allLocations[..i] == reg.allLocations;
  }

  /**
   * getChildLocation: walks the node list and, for each village directly
   * under the facility `uuid` whose name differs from the record's
   * "village - ward", sends the rename, then the Code write and the
   * reparent to `parentLocationUuid`. Only those villages change; their
   * id, tags and identifiers stay, and their name, parent and attributes
   * take only the values written. When the walk ends without a throw and
   * every reply from its start is a 200, each of them carries the expected
   * name and the new parent, and has gained the Village_Code unless it
   * already had a Code. Every request is one of those
   * three about one of them; a record without `village` or `ward` sends
   * nothing. The code index changes at most at the Village_Code, to one of
   * them, and stays within the node list. A throw ends the walk.
   */
  method GetChildLocation(reg: Registry, uuid: Option<string>, parentLocationUuid: Option<string>, rec: Record)
    returns (r: Result<()>)
    modifies reg, reg.server, ChildVillages(reg, uuid)
    ensures reg.allLocations == old(reg.allLocations) && reg.locationCache == old(reg.locationCache)
    ensures |reg.server.sent| >= |old(reg.server.sent)| && reg.server.sent[..|old(reg.server.sent)|] == old(reg.server.sent)
    ensures RealignsOnly(reg.server.sent, |old(reg.server.sent)|, old(TargetIds(reg, uuid)), rec, reg.codeType,
                         parentLocationUuid)
    ensures ExpectedName(rec).Threw? ==> reg.server.sent == old(reg.server.sent)
    ensures forall t :: t in old(ChildVillages(reg, uuid)) ==>
      RealignedNode(t, old(t.Value()), rec, reg.FindLocationByUuid(parentLocationUuid),
                AttributeKey(reg.codeType, reg.hfrCodeType))
    ensures forall t :: t in old(ChildVillages(reg, uuid)) && !RenameDue(old(t.Value()), rec) ==> t.Value() == old(t.Value())
    ensures forall t :: t in old(ChildVillages(reg, uuid)) &&
                        (t.parentLocation != old(t.parentLocation) || t.attributes != old(t.attributes)) ==>
      RenameDue(old(t.Value()), rec) && t.name == Some(ExpectedName(rec).value) && t.name != old(t.name)
    ensures r.Ok? ==> forall t :: t in old(ChildVillages(reg, uuid)) && RenameDue(old(t.Value()), rec) ==>
      SentSince(reg.server.sent, |old(reg.server.sent)|, RenameRequest(old(t.locationId), ExpectedName(rec).value))
    ensures r.Ok? && AllAccepted(reg.server.script, |old(reg.server.sent)|) ==>
      forall t :: t in old(ChildVillages(reg, uuid)) && RenameDue(old(t.Value()), rec) ==>
        "Village_Code" in rec && t.name == Some(ExpectedName(rec).value) &&
        t.parentLocation == reg.FindLocationByUuid(parentLocationUuid) &&
        t.attributes ==
          if old(HasCode(t)) then old(t.attributes)
          else Some(Lazy(old(t.attributes))[AttributeKey(reg.codeType, reg.hfrCodeType) := rec["Village_Code"]])
    ensures CacheFrom(old(reg.codeCache), reg.codeCache, rec, old(ChildVillages(reg, uuid)))
    ensures r.Threw? ==> r.error == NullPointer || r.error == MissingJsonKey
    ensures old(reg.Valid()) ==> reg.Valid()
  {
    ghost var targets := ChildVillages(reg, uuid);
    ghost var before := map t | t in targets :: t.Value();
    ghost var ids := TargetIds(reg, uuid);
    r := WalkChildren(reg, uuid, parentLocationUuid, rec, targets, before, ids, reg.server.sent, reg.codeCache,
                      reg.FindLocationByUuid(parentLocationUuid));
  }
}
