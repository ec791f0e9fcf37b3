/**
 * Utils.ensureLocationExists, the resolver every feed goes through: find a
 * node by its code and bring its name and parent in line, or create it
 * under the given parent and index it. Also importHamletLocationsFromCSV,
 * which resolves one hamlet per CSV row under its village.
 */
module Resolver {
  import opened Wrappers
  import opened Strings
  import opened Domain
  import opened Remote
  import opened State
  import opened Calls
  import opened Creation
  import opened Capitalize
  import opened CsvReader

  /** The code argument is given and not empty; otherwise the resolver returns null at once. */
  predicate HasCodeArg(code: Option<string>)
  {
    code.Some? && code.value != ""
  }

  /** The id sent as the parent of a new node: the parent's id, or none without a parent. */
  function ParentId(parent: Location?): Option<string>
    reads parent
  {
    if parent == null then None else parent.locationId
  }

  /** The node the code index holds for the code, as a frame. */
  ghost function FoundByCode(reg: Registry, code: Option<string>): set<Location>
    reads reg
  {
    var found := reg.FindLocationByCode(code);
    if HasCodeArg(code) && found != null then {found} else {}
  }

  /** The attribute type a new node's code is sent under: the facility code type for a Facility. */
  function CodeAttributeType(reg: Registry, tag: string): (t: string)
    ensures t == reg.codeType || t == reg.hfrCodeType
  {
    if EqualsIgnoreCase(tag, "facility") then reg.hfrCodeType else reg.codeType
  }

  /** What the resolver does about the parent of a found node whose tag matches. */
  datatype ParentFix = KeepParent | ParentIdMissing | Reparent

  /**
   * With a parent given, a found node without a parent is moved under it, a
   * found node whose parent's id is null makes the comparison throw, and a
   * found node whose parent's id differs (case-sensitively) is moved. Without
   * a parent the found node's parent is never touched.
   */
  function ParentDecision(e: Location, parent: Location?): ParentFix
    reads e, e.parentLocation, parent
  {
    if parent == null then KeepParent
    else if e.parentLocation == null then Reparent
    else if e.parentLocation.locationId.None? then ParentIdMissing
    else if e.parentLocation.locationId != parent.locationId then Reparent
    else KeepParent
  }

  /** A rename is requested only when the trimmed names differ, compared case-sensitively. */
  predicate NeedsRename(e: Location, name: string)
    reads e
    requires e.name.Some?
  {
    Trim(e.name.value) != Trim(name)
  }

  /**
   * A found node the resolver sends nothing about: its tag set is null, or
   * it lacks the tag, or its name is null, or its name already matches and
   * its parent needs no move.
   */
  predicate Settled(e: Location, parent: Location?, name: string, tag: string)
    reads e, e.parentLocation, parent
  {
    e.tags.None? || tag !in e.tags.value || e.name.None? ||
    (!NeedsRename(e, name) && ParentDecision(e, parent) != Reparent)
  }

  /** When the found-node branch throws: a null tag set, or on a tag match a null name or a null parent id. */
  predicate FoundThrows(e: Location, parent: Location?, tag: string)
    reads e, e.parentLocation, parent
  {
    e.tags.None? || (tag in e.tags.value && (e.name.None? || ParentDecision(e, parent) == ParentIdMissing))
  }

  /** A reply that lets every write of a resolve through: status 200 with a uuid and the requested name. */
  predicate Accepts(reply: Reply, name: string)
  {
    reply.Answered? && reply.status == 200 && reply.uuid.Some? && reply.name == Some(name)
  }

  /** The next two replies (enough for a rename and a move, or a create) accept. */
  predicate Accepting(script: nat -> Reply, start: nat, name: string)
  {
    Accepts(script(start), name) && Accepts(script(start + 1), name)
  }

  /** The parent, when given, has an id under which the id index finds it. */
  predicate ParentIndexed(reg: Registry, parent: Location?)
    reads reg, parent
  {
    parent != null ==> parent.locationId.Some? && reg.FindLocationByUuid(parent.locationId) == parent
  }

  /** The parent of the node the code index holds for the code, as a frame. */
  ghost function FoundParent(reg: Registry, code: Option<string>): set<Location>
    reads reg, FoundByCode(reg, code)
  {
    var found := reg.FindLocationByCode(code);
    if HasCodeArg(code) && found != null && found.parentLocation != null then {found.parentLocation} else {}
  }

  /**
   * A call the resolver answers without sending anything and without
   * changing any index: no code, a miss that may not be created, or a hit
   * that is already settled.
   */
  predicate Quiet(reg: Registry, parent: Location?, name: string, code: Option<string>, tag: string)
    reads reg, parent, FoundByCode(reg, code), FoundParent(reg, code)
  {
    var found := reg.FindLocationByCode(code);
    !HasCodeArg(code) ||
    (found == null && parent == null && !EqualsIgnoreCase(tag, "Region")) ||
    (found != null && Settled(found, parent, name, tag))
  }

  /** What a quiet call returns: null without a code or on a miss, else the found node or the throw. */
  function QuietResult(reg: Registry, parent: Location?, code: Option<string>, tag: string): Result<Location?>
    reads reg, parent, FoundByCode(reg, code), FoundParent(reg, code)
  {
    var found := reg.FindLocationByCode(code);
    if !HasCodeArg(code) || found == null then Ok(null)
    else if FoundThrows(found, parent, tag) then Threw(NullPointer)
    else Ok(found)
  }

  /**
   * The code index after a resolve: a node returned for a non-empty code is
   * what the index holds for it (found there, or just created and filed);
   * otherwise the index is as it was.
   */
  function CodesAfter(codes: map<string, Location>, code: Option<string>, r: Result<Location?>): map<string, Location>
  {
    if HasCodeArg(code) && r.Ok? && r.value != null then codes[ToLower(code.value) := r.value] else codes
  }

  /** The node list is as it was, or the new node the call returned was appended to it. */
  twostate predicate Listed(reg: Registry, new r: Result<Location?>)
    reads reg
  {
    reg.allLocations == old(reg.allLocations) ||
    (r.Ok? && r.value != null && fresh(r.value) && reg.allLocations == old(reg.allLocations) + [r.value])
  }

  /** The node list and both indexes are as they were. */
  twostate predicate SameIndexes(reg: Registry)
    reads reg
  {
    reg.allLocations == old(reg.allLocations) && reg.locationCache == old(reg.locationCache) &&
    reg.codeCache == old(reg.codeCache)
  }

  /** The rename step of a tag match: the name is sent only when the trimmed names differ. */
  method RenameIfNeeded(reg: Registry, e: Location, name: string, ghost rename: bool, ghost v0: LocationValue)
    requires e.name.Some? && rename == NeedsRename(e, name) && v0 == e.Value()
    modifies reg.server, e
    ensures reg.server.sent == old(reg.server.sent) + Repeat(RenameRequest(v0.locationId, name), Tries(reg.server.script, |old(reg.server.sent)|, rename))
    ensures e.Value() == v0.(name := if Went(reg.server.script, |old(reg.server.sent)|, rename) then Some(name) else v0.name)
    ensures e.name.Some?
    ensures Accepts(reg.server.script(|old(reg.server.sent)|), name) ==>
      !NeedsRename(e, name) && |reg.server.sent| <= |old(reg.server.sent)| + 1
  {
    if Accepts(reg.server.script(|reg.server.sent|), name) {
      OneAttemptWhenFirstStops(reg.server.script, |reg.server.sent|, 10, UntilOk);
    }
    if Trim(e.name.value) != Trim(name) {
      var _ := UpdateLocationName(reg, e, name);
    }
  }

  /**
   * The reparent step of a tag match: the node is moved under the parent's
   * id when ParentDecision says so, and a null parent id throws.
   */
  method ReparentIfNeeded(reg: Registry, e: Location, parent: Location?, name: string,
                          ghost fix: ParentFix, ghost v1: LocationValue, ghost pid: Option<string>)
    returns (r: Result<()>)
    requires fix == ParentDecision(e, parent) && v1 == e.Value() && pid == ParentId(parent)
    modifies reg.server, e
    ensures r.Threw? <==> fix == ParentIdMissing
    ensures r.Threw? ==> r.error == NullPointer
    ensures reg.server.sent == old(reg.server.sent) + Repeat(ReparentRequest(v1.locationId, pid), Tries(reg.server.script, |old(reg.server.sent)|, fix == Reparent))
    ensures e.Value() == v1.(parentLocation := if Went(reg.server.script, |old(reg.server.sent)|, fix == Reparent)
                                               then reg.FindLocationByUuid(pid) else v1.parentLocation)
    ensures Accepts(reg.server.script(|old(reg.server.sent)|), name) && old(ParentIndexed(reg, parent)) ==>
      ParentDecision(e, parent) != Reparent && (ParentDecision(e, parent) == ParentIdMissing <==> fix == ParentIdMissing)
  {
    if Accepts(reg.server.script(|reg.server.sent|), name) {
      OneAttemptWhenFirstStops(reg.server.script, |reg.server.sent|, 10, UntilOk);
    }
    r := Ok(());
    if e.parentLocation == null && parent != null {
      UpdateChildLocationParent(reg, e, parent.locationId);
    } else if e.parentLocation != null && parent != null {
      if e.parentLocation.locationId.None? {
        return Threw(NullPointer);
      }
      if e.parentLocation.locationId != parent.locationId {
        UpdateChildLocationParent(reg, e, parent.locationId);
      }
    }
  }

  /** How many attempts an update step makes: none when it is not needed, else the retry loop's count. */
  function Tries(script: nat -> Reply, start: nat, needed: bool): nat
  {
    if needed then Attempts(script, start, 10, UntilOk) else 0
  }

  /** Whether an update step was needed and went through. */
  predicate Went(script: nat -> Reply, start: nat, needed: bool)
  {
    needed && Stopped(script, start, 10, UntilOk)
  }



  /**
   * The tag-match part of the found-node branch: the name and then the
   * parent are updated as needed, each through its own bounded retry loop;
   * a null parent id throws after the rename.
   */
  method UpdateMatched(reg: Registry, e: Location, parent: Location?, name: string) returns (r: Result<()>)
    requires e.name.Some?
    modifies reg.server, e
    ensures var start := |old(reg.server.sent)|;
      var renames := Tries(reg.server.script, start, old(NeedsRename(e, name)));
      var fix := old(ParentDecision(e, parent));
      reg.server.sent == old(reg.server.sent) + Repeat(RenameRequest(old(e.locationId), name), renames) +
                         Repeat(ReparentRequest(old(e.locationId), old(ParentId(parent))),
                                Tries(reg.server.script, start + renames, fix == Reparent))
    ensures var start := |old(reg.server.sent)|;
      var renames := Tries(reg.server.script, start, old(NeedsRename(e, name)));
      var fix := old(ParentDecision(e, parent));
      e.Value() == old(e.Value()).(name := if Went(reg.server.script, start, old(NeedsRename(e, name))) then Some(name)
                                           else old(e.name),
                                   parentLocation := if Went(reg.server.script, start + renames, fix == Reparent)
                                                     then reg.FindLocationByUuid(old(ParentId(parent)))
                                                     else old(e.parentLocation))
    ensures r.Threw? <==> old(ParentDecision(e, parent)) == ParentIdMissing
    ensures r.Threw? ==> r.error == NullPointer
    ensures old(!NeedsRename(e, name) && ParentDecision(e, parent) != Reparent) ==>
      reg.server.sent == old(reg.server.sent) && e.Value() == old(e.Value())
  {
    r := RenameThenReparent(reg, e, parent, name, NeedsRename(e, name), ParentDecision(e, parent), ParentId(parent), e.Value());
  }

  /** The two steps of UpdateMatched, stated on the decisions taken before either runs. */
  method RenameThenReparent(reg: Registry, e: Location, parent: Location?, name: string,
                            ghost rename: bool, ghost fix: ParentFix, ghost pid: Option<string>, ghost v0: LocationValue)
    returns (r: Result<()>)
    requires e.name.Some? && rename == NeedsRename(e, name) && fix == ParentDecision(e, parent)
    requires pid == ParentId(parent) && v0 == e.Value()
    modifies reg.server, e
    ensures var start := |old(reg.server.sent)|;
      var renames := Tries(reg.server.script, start, rename);
      reg.server.sent == old(reg.server.sent) + Repeat(RenameRequest(v0.locationId, name), renames) +
                         Repeat(ReparentRequest(v0.locationId, pid), Tries(reg.server.script, start + renames, fix == Reparent))
    ensures var start := |old(reg.server.sent)|;
      var renames := Tries(reg.server.script, start, rename);
      e.Value() == v0.(name := if Went(reg.server.script, start, rename) then Some(name) else v0.name,
                       parentLocation := if Went(reg.server.script, start + renames, fix == Reparent)
                                         then reg.FindLocationByUuid(pid) else v0.parentLocation)
    ensures r.Threw? <==> fix == ParentIdMissing
    ensures r.Threw? ==> r.error == NullPointer
    ensures !rename && fix != Reparent ==> reg.server.sent == old(reg.server.sent) && e.Value() == v0
  {
    ghost var start := |reg.server.sent|;
    RenameIfNeeded(reg, e, name, rename, v0);
    ghost var renames := Tries(reg.server.script, start, rename);
    ghost var mid := reg.server.sent;
    ghost var renameLog := Repeat(RenameRequest(v0.locationId, name), renames);
    assert |mid| == start + renames;
    ghost var v1 := e.Value();
    assert ParentDecision(e, parent) == fix && ParentId(parent) == pid;
    r := ReparentIfNeeded(reg, e, parent, name, fix, v1, pid);
    ghost var moveLog := Repeat(ReparentRequest(v0.locationId, pid), Tries(reg.server.script, start + renames, fix == Reparent));
    AppendTwice(old(reg.server.sent), renameLog, moveLog, mid, reg.server.sent);
    if !rename && fix != Reparent {
      assert renameLog == [] && moveLog == [];
    }
  }

  /**
   * The found-node branch (the node is found by its code). Nothing is ever
   * created and no index changes; the node is returned unless a null tag
   * set, a null name or a null parent id makes the source throw. On a tag
   * mismatch nothing is written.
   */
  method ResolveExisting(reg: Registry, e: Location, parent: Location?, name: string, tag: string)
    returns (r: Result<Location?>)
    modifies reg.server, e
    ensures r.Ok? ==> r.value == e
    ensures r.Threw? ==> r.error == NullPointer
    ensures r.Threw? <==> old(FoundThrows(e, parent, tag))
    ensures old(e.tags).None? || tag !in old(e.tags).value || old(e.name).None? ==>
      reg.server.sent == old(reg.server.sent) && e.Value() == old(e.Value())
    ensures old(Settled(e, parent, name, tag)) ==> reg.server.sent == old(reg.server.sent) && e.Value() == old(e.Value())
    ensures old(Accepting(reg.server.script, |reg.server.sent|, name)) && old(ParentIndexed(reg, parent)) ==>
      Settled(e, parent, name, tag) && (FoundThrows(e, parent, tag) <==> old(FoundThrows(e, parent, tag)))
  {
    if e.tags.None? {
      return Threw(NullPointer);
    }
    if tag !in e.tags.value || e.name.None? {
      return if tag !in e.tags.value then Ok(e as Location?) else Threw(NullPointer);
    }
    var moved := UpdateMatched(reg, e, parent, name);
    r := if moved.Threw? then Threw(NullPointer) else Ok(e as Location?);
  }

  /**
   * What the creation branch does: one create request (retried on throws)
   * carrying the name, the parent's id, the single tag and the code under
   * its attribute type. A created node is new, carries the tag and the
   * parent found by id, is appended to the node list and is what both
   * lookups now return for its id and its code; a failed create leaves the
   * list and both indexes as they were.
   */
  twostate predicate CreatedOutcome(reg: Registry, parent: Location?, name: string, code: string, tag: string,
                                    new r: Location?)
    reads reg, reg.server, r
  {
    var start := |old(reg.server.sent)|;
    reg.server.sent == old(reg.server.sent) +
      Repeat(CreateRequest(name, old(ParentId(parent)), {tag}, map[CodeAttributeType(reg, tag) := code]),
             Attempts(reg.server.script, start, CreateAttempts, UntilAnswer)) &&
    (r != null <==> CreateSucceeded(reg.server.script, start)) &&
    (r == null ==> SameIndexes(reg)) &&
    (r != null ==>
      fresh(r) && r.tags == Some({tag}) && r.parentLocation == old(reg.FindLocationByUuid(ParentId(parent))) &&
      reg.allLocations == old(reg.allLocations) + [r] &&
      reg.FindLocationByUuid(r.locationId) == r && reg.FindLocationByCode(Some(code)) == r)
  }

  /**
   * The creation branch: one attribute (the code under the facility or the
   * general code type), the single tag, the parent's id. A created node is
   * appended to the node list and indexed under its lower-cased id and its
   * lower-cased code; a failed create changes nothing local.
   */
  method CreateMissing(reg: Registry, parent: Location?, name: string, code: string, tag: string)
    returns (r: Location?)
    modifies reg, reg.server
    ensures CreatedOutcome(reg, parent, name, code, tag, r)
    ensures r != null ==>
      r.locationId.Some? && r.name == LastReply(reg.server.script, |old(reg.server.sent)|, CreateAttempts, UntilAnswer).name &&
      reg.locationCache == old(reg.locationCache)[ToLower(r.locationId.value) := r] &&
      reg.codeCache == old(reg.codeCache)[ToLower(code) := r]
    ensures old(reg.Valid()) ==> reg.Valid()
    ensures old(Accepts(reg.server.script(|reg.server.sent|), name)) && old(ParentIndexed(reg, parent)) ==>
      r != null && Settled(r, parent, name, tag) && !FoundThrows(r, parent, tag)
  {
    r := CreateNode(reg, parent, name, code, tag);
    if r != null {
      IndexCreated(reg, r);
    }
  }

  /**
   * The create request of the creation branch and the node it builds: the
   * single tag, the code filed under Code or HFR Code, the parent looked up
   * by id. Under a server that accepts at once, the node exists and carries
   * the requested name.
   */
  method CreateNode(reg: Registry, parent: Location?, name: string, code: string, tag: string)
    returns (r: Location?)
    modifies reg.server
    ensures var start := |old(reg.server.sent)|;
      reg.server.sent == old(reg.server.sent) +
        Repeat(CreateRequest(name, ParentId(parent), {tag}, map[CodeAttributeType(reg, tag) := code]),
               Attempts(reg.server.script, start, CreateAttempts, UntilAnswer))
    ensures r != null <==> CreateSucceeded(reg.server.script, |old(reg.server.sent)|)
    ensures r != null ==>
      fresh(r) && r.locationId.Some? &&
      r.name == LastReply(reg.server.script, |old(reg.server.sent)|, CreateAttempts, UntilAnswer).name &&
      r.tags == Some({tag}) && r.parentLocation == reg.FindLocationByUuid(ParentId(parent)) &&
      CreatedCode(r) == Some(code)
    ensures Accepts(reg.server.script(|old(reg.server.sent)|), name) ==> r != null && r.name == Some(name)
  {
    if Accepts(reg.server.script(|reg.server.sent|), name) {
      OneAttemptWhenFirstStops(reg.server.script, |reg.server.sent|, CreateAttempts, UntilAnswer);
    }
    var attributeType := CodeAttributeType(reg, tag);
    var parentUuid := if parent != null then parent.locationId else None;
    SingleAttributeFiled(attributeType, code, reg.codeType, reg.hfrCodeType);
    r := CreateNewLocation(reg, name, parentUuid, {tag}, map[attributeType := code]);
  }

  /** The code under which a created node is indexed: its Code, else its HFR Code. */
  function CreatedCode(n: Location): Option<string>
    reads n
  {
    if n.attributes.Some? && "Code" in n.attributes.value then Some(n.attributes.value["Code"])
    else if n.attributes.Some? && "HFR Code" in n.attributes.value then Some(n.attributes.value["HFR Code"])
    else None
  }

  /** The bookkeeping after a create: the node is listed and indexed by id and by code. */
  method IndexCreated(reg: Registry, n: Location)
    modifies reg
    ensures reg.allLocations == old(reg.allLocations) + [n]
    ensures reg.locationCache == if n.locationId.Some? then old(reg.locationCache)[ToLower(n.locationId.value) := n]
                                 else old(reg.locationCache)
    ensures reg.codeCache == if CreatedCode(n).Some? then old(reg.codeCache)[ToLower(CreatedCode(n).value) := n]
                             else old(reg.codeCache)
    ensures old(reg.Valid()) ==> reg.Valid()
  {
    reg.allLocations := reg.allLocations + [n];
    if n.locationId.Some? {
      reg.locationCache := reg.locationCache[ToLower(n.locationId.value) := n];
    }
    if n.attributes.Some? && "Code" in n.attributes.value {
      reg.codeCache := reg.codeCache[ToLower(n.attributes.value["Code"]) := n];
    } else if n.attributes.Some? && "HFR Code" in n.attributes.value {
      reg.codeCache := reg.codeCache[ToLower(n.attributes.value["HFR Code"]) := n];
    }
  }

  /**
   * The code-hit branch: the found node is resolved by ResolveExisting;
   * no index changes and nothing is created.
   */
  method ResolveHit(reg: Registry, parent: Location?, name: string, code: Option<string>, tag: string)
    returns (r: Result<Location?>)
    requires HasCodeArg(code) && reg.FindLocationByCode(code) != null
    modifies reg.server, FoundByCode(reg, code)
    ensures r.Ok? ==> r.value == reg.FindLocationByCode(code)
    ensures r.Threw? ==> r.error == NullPointer
    ensures r.Threw? <==> old(FoundThrows(reg.FindLocationByCode(code), parent, tag))
    ensures old(Settled(reg.FindLocationByCode(code), parent, name, tag)) ==>
      reg.server.sent == old(reg.server.sent) && reg.FindLocationByCode(code).Value() == old(reg.FindLocationByCode(code).Value())
    ensures old(Accepting(reg.server.script, |reg.server.sent|, name)) && old(ParentIndexed(reg, parent)) ==>
      Quiet(reg, parent, name, code, tag) && r == QuietResult(reg, parent, code, tag)
    ensures reg.codeCache == CodesAfter(reg.codeCache, code, r)
  {
    var existing := reg.FindLocationByCode(code);
    r := ResolveExisting(reg, existing, parent, name, tag);
    assert reg.codeCache[ToLower(code.value) := existing] == reg.codeCache;
  }

  /**
   * The code-miss branch: without a parent only a Region is created (the
   * tag compared ignoring case); otherwise the node is created and indexed.
   */
  method ResolveMiss(reg: Registry, parent: Location?, name: string, code: Option<string>, tag: string)
    returns (r: Result<Location?>)
    requires HasCodeArg(code) && reg.FindLocationByCode(code) == null
    modifies reg, reg.server
    ensures old(reg.Valid()) ==> reg.Valid()
    ensures parent == null && !EqualsIgnoreCase(tag, "Region") ==>
      r == Ok(null) && reg.server.sent == old(reg.server.sent) && SameIndexes(reg)
    ensures parent != null || EqualsIgnoreCase(tag, "Region") ==>
      r.Ok? && CreatedOutcome(reg, parent, name, code.value, tag, r.value)
    ensures old(Accepting(reg.server.script, |reg.server.sent|, name)) && old(ParentIndexed(reg, parent)) ==>
      Quiet(reg, parent, name, code, tag) && r == QuietResult(reg, parent, code, tag)
    ensures reg.codeCache == CodesAfter(old(reg.codeCache), code, r)
    ensures r.Ok? && r.value != null ==> fresh(r.value)
  {
    if parent == null && !EqualsIgnoreCase(tag, "Region") {
      r := Ok(null);
    } else {
      var created := CreateMissing(reg, parent, name, code.value, tag);
      r := Ok(created);
    }
  }

  /**
   * ensureLocationExists. A null or empty code returns null and touches
   * nothing. A code hit is resolved by ResolveExisting and never creates. A
   * miss without a parent returns null unless the tag is Region (ignoring
   * case); any other miss creates.
   */
  method EnsureLocationExists(reg: Registry, parent: Location?, name: string, code: Option<string>, tag: string)
    returns (r: Result<Location?>)
    modifies reg, reg.server, FoundByCode(reg, code)
    ensures r.Threw? ==> r.error == NullPointer
    ensures old(reg.Valid()) ==> reg.Valid()
    ensures !HasCodeArg(code) ==> r == Ok(null) && reg.server.sent == old(reg.server.sent) && SameIndexes(reg)
    ensures HasCodeArg(code) && old(reg.FindLocationByCode(code)) != null ==>
      SameIndexes(reg) && (r.Ok? ==> r.value == old(reg.FindLocationByCode(code))) &&
      (r.Threw? <==> old(FoundThrows(reg.FindLocationByCode(code), parent, tag)))
    ensures HasCodeArg(code) && old(reg.FindLocationByCode(code)) != null &&
            old(Settled(reg.FindLocationByCode(code), parent, name, tag)) ==>
      reg.server.sent == old(reg.server.sent) &&
      old(reg.FindLocationByCode(code)).Value() == old(reg.FindLocationByCode(code).Value())
    ensures HasCodeArg(code) && old(reg.FindLocationByCode(code)) == null && parent == null &&
            !EqualsIgnoreCase(tag, "Region") ==>
      r == Ok(null) && reg.server.sent == old(reg.server.sent) && SameIndexes(reg)
    ensures HasCodeArg(code) && old(reg.FindLocationByCode(code)) == null &&
            (parent != null || EqualsIgnoreCase(tag, "Region")) ==>
      r.Ok? && CreatedOutcome(reg, parent, name, code.value, tag, r.value)
    ensures old(Accepting(reg.server.script, |reg.server.sent|, name)) && old(ParentIndexed(reg, parent)) ==>
      Quiet(reg, parent, name, code, tag) && r == QuietResult(reg, parent, code, tag)
    ensures reg.codeCache == CodesAfter(old(reg.codeCache), code, r)
    ensures r.Ok? && r.value != null ==> r.value in old(reg.codeCache.Values) || fresh(r.value)
    ensures Listed(reg, r)
  {
    ghost var wasValid := reg.Valid();
    if code.None? || code.value == "" {
      r := Ok(null);
    } else if reg.FindLocationByCode(code) != null {
      r := ResolveHit(reg, parent, name, code, tag);
    } else {
      r := ResolveMiss(reg, parent, name, code, tag);
    }
    assert wasValid ==> reg.Valid();
  }

  /**
   * ensureLocationExists as the feed drivers call it: the call and its
   * outcome are appended to the registry's call record.
   */
  method RecordedEnsure(reg: Registry, parent: Location?, name: string, code: Option<string>, tag: string)
    returns (r: Result<Location?>)
    modifies reg, reg.server, reg.trace, FoundByCode(reg, code)
    ensures reg.trace.calls == old(reg.trace.calls) + [EnsureCall(parent, name, code, tag, r)]
    ensures r.Threw? ==> r.error == NullPointer
    ensures old(reg.Valid()) ==> reg.Valid()
    ensures reg.codeCache == CodesAfter(old(reg.codeCache), code, r)
    ensures r.Ok? && r.value != null ==> r.value in old(reg.codeCache.Values) || fresh(r.value)
    ensures Listed(reg, r)
    ensures parent == null && !EqualsIgnoreCase(tag, "Region") && old(reg.FindLocationByCode(code)) == null ==>
      r == Ok(null)
  {
    r := EnsureLocationExists(reg, parent, name, code, tag);
    reg.trace.Record(EnsureCall(parent, name, code, tag, r));
  }

  /**
   * Repeating a call that went through performs no further writes: with a
   * server that accepts the first call's requests and a parent the id index
   * finds under its own id, the second of two identical calls sends
   * nothing, changes no index and returns what the first returned.
   */
  method EnsureTwice(reg: Registry, parent: Location?, name: string, code: Option<string>, tag: string)
    returns (first: Result<Location?>, second: Result<Location?>, afterFirst: seq<Request>)
    requires Accepting(reg.server.script, |reg.server.sent|, name) && ParentIndexed(reg, parent)
    modifies reg, reg.server, FoundByCode(reg, code)
    ensures second == first
    ensures reg.server.sent == afterFirst
  {
    first := EnsureLocationExists(reg, parent, name, code, tag);
    afterFirst := reg.server.sent;
    second := EnsureLocationExists(reg, parent, name, code, tag);
  }

  // ---------------------------------------------------------------------
  // importHamletLocationsFromCSV

  /** The village a hamlet row hangs under: what the code index holds for a non-empty village code. */
  function RowVillage(codes: map<string, Location>, row: CsvRow): (v: Location?)
    ensures v != null <==> row.villageCode != "" && ToLower(row.villageCode) in codes
  {
    if row.villageCode == "" || ToLower(row.villageCode) !in codes then null else codes[ToLower(row.villageCode)]
  }

  /** The name a hamlet is resolved under: "hamlet - village - ward", capitalised. */
  function HamletName(row: CsvRow): string
  {
    Capitalized(row.hamlet + " - " + row.village + " - " + row.ward)
  }

  /** Whether a row reaches the resolver: its village is indexed and its hamlet name is not empty. */
  predicate RowCalls(codes: map<string, Location>, row: CsvRow)
  {
    RowVillage(codes, row) != null && row.hamlet != ""
  }

  /** The resolver call a row makes (none when it does not reach the resolver). */
  function RowCall(codes: map<string, Location>, row: CsvRow, outcome: Result<Location?>): seq<EnsureCall>
  {
    if RowCalls(codes, row) then [EnsureCall(RowVillage(codes, row), HamletName(row), Some(row.hamletCode), "Hamlet", outcome)]
    else []
  }

  /** The code index after a row. */
  function RowCodes(codes: map<string, Location>, row: CsvRow, outcome: Result<Location?>): map<string, Location>
  {
    if RowCalls(codes, row) then CodesAfter(codes, Some(row.hamletCode), outcome) else codes
  }

  /** The code index after the given rows, each with its resolver outcome. */
  function CodesAfterRows(codes: map<string, Location>, rows: seq<CsvRow>, outcomes: seq<Result<Location?>>): map<string, Location>
    requires |outcomes| == |rows|
    decreases |rows|
  {
    if rows == [] then codes
    else
      var n := |rows| - 1;
      RowCodes(CodesAfterRows(codes, rows[..n], outcomes[..n]), rows[n], outcomes[n])
  }

  /** The resolver calls the given rows make, in order, each looking its village up in the index as it then is. */
  function HamletCalls(codes: map<string, Location>, rows: seq<CsvRow>, outcomes: seq<Result<Location?>>): seq<EnsureCall>
    requires |outcomes| == |rows|
    decreases |rows|
  {
    if rows == [] then []
    else
      var n := |rows| - 1;
      HamletCalls(codes, rows[..n], outcomes[..n]) + RowCall(CodesAfterRows(codes, rows[..n], outcomes[..n]), rows[n], outcomes[n])
  }

  /**
   * The row loop of importHamletLocationsFromCSV. A thrown resolve is
   * logged and the loop goes on with the next row; `outcomes` holds each
   * row's resolver outcome (Ok(null) for a row that makes no call).
   */
  method ImportHamletRows(reg: Registry, rows: seq<CsvRow>) returns (ghost outcomes: seq<Result<Location?>>)
    modifies reg, reg.server, reg.trace, reg.codeCache.Values
    ensures |outcomes| == |rows|
    ensures reg.trace.calls == old(reg.trace.calls) + HamletCalls(old(reg.codeCache), rows, outcomes)
    ensures reg.codeCache == CodesAfterRows(old(reg.codeCache), rows, outcomes)
    ensures old(reg.Valid()) ==> reg.Valid()
  {
    outcomes := [];
    ghost var codes0, calls0 := reg.codeCache, reg.trace.calls;
    var i := 0;
    while i < |rows|
      invariant 0 <= i <= |rows| && |outcomes| == i
      invariant reg.trace.calls == calls0 + HamletCalls(codes0, rows[..i], outcomes)
      invariant reg.codeCache == CodesAfterRows(codes0, rows[..i], outcomes)
      invariant forall l :: l in reg.codeCache.Values ==> l in codes0.Values || fresh(l)
      invariant old(reg.Valid()) ==> reg.Valid()
    {
      assert FoundByCode(reg, Some(rows[i].hamletCode)) <= reg.codeCache.Values;
      var outcome := ImportNext(reg, rows, i, codes0, calls0, outcomes);
      outcomes := outcomes + [outcome];
      i := i + 1;
    }
    assert rows[..i] == rows;
  }

  /** One more row: the calls and the index of a prefix extended by the next row. */
  lemma RowsStep(codes: map<string, Location>, rows: seq<CsvRow>, outcomes: seq<Result<Location?>>,
                 outcome: Result<Location?>, i: nat)
    requires i < |rows| && |outcomes| == i
    ensures var before := CodesAfterRows(codes, rows[..i], outcomes);
      HamletCalls(codes, rows[..i + 1], outcomes + [outcome]) ==
        HamletCalls(codes, rows[..i], outcomes) + RowCall(before, rows[i], outcome) &&
      CodesAfterRows(codes, rows[..i + 1], outcomes + [outcome]) == RowCodes(before, rows[i], outcome)
  {
    assert rows[..i + 1][..i] == rows[..i] && (outcomes + [outcome])[..i] == outcomes;
  }

  /** The next row of the loop: the calls and the index of the rows done so far grow by this row's. */
  method ImportNext(reg: Registry, rows: seq<CsvRow>, i: nat, ghost codes0: map<string, Location>,
                    ghost calls0: seq<EnsureCall>, ghost outcomes: seq<Result<Location?>>)
    returns (outcome: Result<Location?>)
    requires i < |rows| && |outcomes| == i
    requires reg.trace.calls == calls0 + HamletCalls(codes0, rows[..i], outcomes)
    requires reg.codeCache == CodesAfterRows(codes0, rows[..i], outcomes)
    modifies reg, reg.server, reg.trace, FoundByCode(reg, Some(rows[i].hamletCode))
    ensures reg.trace.calls == calls0 + HamletCalls(codes0, rows[..i + 1], outcomes + [outcome])
    ensures reg.codeCache == CodesAfterRows(codes0, rows[..i + 1], outcomes + [outcome])
    ensures forall l :: l in reg.codeCache.Values ==> l in old(reg.codeCache.Values) || fresh(l)
    ensures old(reg.Valid()) ==> reg.Valid()
  {
    ghost var done := HamletCalls(codes0, rows[..i], outcomes);
    ghost var codes := reg.codeCache;
    outcome := ImportRow(reg, rows[i]);
    RowsStep(codes0, rows, outcomes, outcome, i);
    AppendTwice(calls0, done, RowCall(codes, rows[i], outcome), calls0 + done, reg.trace.calls);
  }

  /** One row of the import: the village lookup and, when it reaches the resolver, the resolve. */
  method ImportRow(reg: Registry, row: CsvRow) returns (outcome: Result<Location?>)
    modifies reg, reg.server, reg.trace, FoundByCode(reg, Some(row.hamletCode))
    ensures reg.trace.calls == old(reg.trace.calls) + RowCall(old(reg.codeCache), row, outcome)
    ensures reg.codeCache == RowCodes(old(reg.codeCache), row, outcome)
    ensures forall l :: l in reg.codeCache.Values ==> l in old(reg.codeCache.Values) || fresh(l)
    ensures old(reg.Valid()) ==> reg.Valid()
  {
    var village: Location? := null;
    if row.villageCode != "" {
      village := reg.FindLocationByCode(Some(row.villageCode));
    }
    assert village == RowVillage(reg.codeCache, row);
    outcome := Ok(null);
    if village != null && row.hamlet != "" {
      outcome := RecordedEnsure(reg, village, HamletName(row), Some(row.hamletCode), "Hamlet");
    }
  }

  /**
   * importHamletLocationsFromCSV. A missing resource is an IOException that
   * is logged, and nothing happens; a line of exactly nine fields makes the
   * reader throw an exception that is not caught here, so the import ends
   * with it before any row is resolved; otherwise every row goes through
   * the row loop.
   */
  method ImportHamletLocationsFromCsv(reg: Registry, resource: Option<seq<string>>)
    returns (r: Result<()>, ghost outcomes: seq<Result<Location?>>)
    modifies reg, reg.server, reg.trace, reg.codeCache.Values
    ensures r == if ReadCsv(resource).Threw? && ReadCsv(resource).error != ResourceNotFound
                 then Threw(ReadCsv(resource).error) else Ok(())
    ensures ReadCsv(resource).Threw? ==>
      reg.trace.calls == old(reg.trace.calls) && reg.server.sent == old(reg.server.sent) && SameIndexes(reg)
    ensures ReadCsv(resource).Ok? ==>
      var rows := ReadCsv(resource).value;
      |outcomes| == |rows| &&
      reg.trace.calls == old(reg.trace.calls) + HamletCalls(old(reg.codeCache), rows, outcomes) &&
      reg.codeCache == CodesAfterRows(old(reg.codeCache), rows, outcomes)
    ensures old(reg.Valid()) ==> reg.Valid()
  {
    outcomes := [];
    var rows := ReadCsvFromResources(resource);
    if rows.Threw? {
      if rows.error == ResourceNotFound {
        return Ok(()), outcomes;
      }
      return Threw(rows.error), outcomes;
    }
    outcomes := ImportHamletRows(reg, rows.value);
    r := Ok(());
  }

  /** How many rows reach the resolver when the code index does not change along the way. */
  function CallingRows(codes: map<string, Location>, rows: seq<CsvRow>): nat
    decreases |rows|
  {
    if rows == [] then 0
    else CallingRows(codes, rows[..|rows| - 1]) + (if RowCalls(codes, rows[|rows| - 1]) then 1 else 0)
  }

  /**
   * A throwing row does not stop the import: when every resolve throws, the
   * code index never changes and every row whose village the index holds
   * and whose hamlet name is not empty still makes its call, tagged Hamlet
   * and under its village.
   */
  lemma {:induction false} ThrowingRowsDoNotStopImport(codes: map<string, Location>, rows: seq<CsvRow>,
                                                      outcomes: seq<Result<Location?>>)
    requires |outcomes| == |rows|
    requires forall k :: 0 <= k < |outcomes| ==> outcomes[k].Threw?
    ensures CodesAfterRows(codes, rows, outcomes) == codes
    ensures |HamletCalls(codes, rows, outcomes)| == CallingRows(codes, rows)
    ensures forall c :: c in HamletCalls(codes, rows, outcomes) ==> c.tag == "Hamlet" && c.parent != null && c.result.Threw?
    decreases |rows|
  {
    if rows != [] {
      var n := |rows| - 1;
      ThrowingRowsDoNotStopImport(codes, rows[..n], outcomes[..n]);
    }
  }

  /**
   * Whatever the outcomes, every call the import makes is tagged Hamlet,
   * has a village as its parent and carries the row's hamlet code; there is
   * at most one call per row.
   */
  lemma {:induction false} HamletCallsShape(codes: map<string, Location>, rows: seq<CsvRow>,
                                           outcomes: seq<Result<Location?>>)
    requires |outcomes| == |rows|
    ensures |HamletCalls(codes, rows, outcomes)| <= |rows|
    ensures forall c :: c in HamletCalls(codes, rows, outcomes) ==>
      c.tag == "Hamlet" && c.parent != null && exists k :: 0 <= k < |rows| && c.code == Some(rows[k].hamletCode) && c.name == HamletName(rows[k])
    decreases |rows|
  {
    if rows != [] {
      var n := |rows| - 1;
      HamletCallsShape(codes, rows[..n], outcomes[..n]);
      var calls := HamletCalls(codes, rows, outcomes);
      forall c | c in calls
        ensures c.tag == "Hamlet" && c.parent != null && exists k :: 0 <= k < |rows| && c.code == Some(rows[k].hamletCode) && c.name == HamletName(rows[k])
      {
        if c in HamletCalls(codes, rows[..n], outcomes[..n]) {
          var k :| 0 <= k < n && c.code == Some(rows[..n][k].hamletCode) && c.name == HamletName(rows[..n][k]);
          assert rows[..n][k] == rows[k];
        } else {
          assert c.code == Some(rows[n].hamletCode) && c.name == HamletName(rows[n]);
        }
      }
    }
  }
}
