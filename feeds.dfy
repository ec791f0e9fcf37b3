/**
 * The feed drivers of Main. processHfrResponse and processAdminHierarchyData
 * walk the records of a page and resolve each record's hierarchy level by
 * level with ensureLocationExists, each resolved node becoming the parent
 * of the next level; the facility feed also realigns the villages filed
 * under the facility. fetchHfrData and fetchHfrAdminHierarchyData retry a
 * page fetch until it does not throw.
 */
module Feeds {
  import opened Wrappers
  import opened Strings
  import opened Domain
  import opened Remote
  import opened State
  import opened Capitalize
  import opened Resolver
  import opened Realign

  // ---------------------------------------------------------------------
  // The level chains

  /** Where a level's code comes from: a member of the record, or a fixed code. */
  datatype CodeFrom = CodeMember(key: string) | FixedCode(code: string)

  /** The node a level is resolved under: none, or the result of an earlier level of the same record. */
  datatype ParentFrom = NoParent | ResultOf(level: nat)

  /** One level of a chain: the members joined by " - " into its name, its code, its tag and its parent. */
  datatype Level = Level(nameKeys: seq<string>, code: CodeFrom, tag: string, parent: ParentFrom)

  /**
   * The facility feed: Region (no parent), District, Council, Ward named
   * "ward - council", Facility named "Name - Fac_IDNumber" with code
   * Fac_IDNumber, and the Village under the ward.
   */
  const HfrLevels: seq<Level> := [
    Level(["region"], CodeMember("Region_Code"), "Region", NoParent),
    Level(["district"], CodeMember("District_Code"), "District", ResultOf(0)),
    Level(["council"], CodeMember("Council_Code"), "Council", ResultOf(1)),
    Level(["ward", "council"], CodeMember("ward_Code"), "Ward", ResultOf(2)),
    Level(["Name", "Fac_IDNumber"], CodeMember("Fac_IDNumber"), "Facility", ResultOf(3)),
    Level(["village", "ward", "council"], CodeMember("Village_Code"), "Village", ResultOf(3))
  ]

  /** The level whose result the facility feed realigns under. */
  const FacilityLevel: nat := 4

  /**
   * The administrative feed: Country (code TZ, no parent), Zone, Region,
   * then Ward with no parent and the Village under it.
   */
  const AdminLevels: seq<Level> := [
    Level(["country"], FixedCode("TZ"), "Country", NoParent),
    Level(["zone"], CodeMember("zone_code"), "Zone", ResultOf(0)),
    Level(["region"], CodeMember("region_code"), "Region", ResultOf(1)),
    Level(["ward", "council"], CodeMember("ward_code"), "Ward", NoParent),
    Level(["village_mtaa", "ward", "council"], CodeMember("village_mtaa_code"), "Village", ResultOf(3))
  ]

  /** The members joined by " - ", or the exception getString throws on a missing one. */
  function JoinedName(rec: Record, keys: seq<string>): (r: Result<string>)
    ensures r.Ok? <==> forall i :: 0 <= i < |keys| ==> keys[i] in rec
    ensures r.Threw? ==> r.error == MissingJsonKey
    decreases |keys|
  {
    if keys == [] then Ok("")
    else if keys[0] !in rec then Threw(MissingJsonKey)
    else if |keys| == 1 then Ok(rec[keys[0]])
    else
      match JoinedName(rec, keys[1..])
      case Ok(rest) => Ok(rec[keys[0]] + " - " + rest)
      case Threw(e) => Threw(e)
  }

  /** The raw name and the code a level's call is made with. */
  datatype Args = Args(name: string, code: string)

  /** The arguments a level reads from the record, or the exception a missing member raises. */
  function LevelArgs(rec: Record, lv: Level): (r: Result<Args>)
    ensures r.Ok? <==> JoinedName(rec, lv.nameKeys).Ok? && (lv.code.CodeMember? ==> lv.code.key in rec)
    ensures r.Ok? ==> r.value.name == JoinedName(rec, lv.nameKeys).value
    ensures r.Threw? ==> r.error == MissingJsonKey
  {
    match JoinedName(rec, lv.nameKeys)
    case Threw(e) => Threw(e)
    case Ok(name) =>
      match lv.code
      case FixedCode(c) => Ok(Args(name, c))
      case CodeMember(k) => if k in rec then Ok(Args(name, rec[k])) else Threw(MissingJsonKey)
  }

  /** The parent a level is resolved under, given the record's earlier calls. */
  function LevelParent(lv: Level, earlier: seq<EnsureCall>): Location?
  {
    match lv.parent
    case NoParent => null
    case ResultOf(j) => if j < |earlier| && earlier[j].result.Ok? then earlier[j].result.value else null
  }

  /** The call a level makes: its parent, its capitalised name, its code and its tag. */
  function LevelCall(rec: Record, lv: Level, earlier: seq<EnsureCall>, result: Result<Location?>): EnsureCall
    requires LevelArgs(rec, lv).Ok?
  {
    var args := LevelArgs(rec, lv).value;
    EnsureCall(LevelParent(lv, earlier), Capitalized(args.name), Some(args.code), lv.tag, result)
  }

  /**
   * The calls of one record follow the chain: each is its level's call,
   * made only after every earlier call returned without throwing.
   */
  predicate Chain(rec: Record, levels: seq<Level>, calls: seq<EnsureCall>)
    decreases |calls|
  {
    |calls| <= |levels| &&
    (calls != [] ==>
      var n := |calls| - 1;
      Chain(rec, levels, calls[..n]) && (n > 0 ==> calls[n - 1].result.Ok?) &&
      LevelArgs(rec, levels[n]).Ok? && calls[n] == LevelCall(rec, levels[n], calls[..n], calls[n].result))
  }

  /** The chain stopped where the source stops: every level done, the last call threw, or the next level's members are missing. */
  predicate ChainEnded(rec: Record, levels: seq<Level>, calls: seq<EnsureCall>)
    requires |calls| <= |levels|
  {
    |calls| == |levels| || (calls != [] && calls[|calls| - 1].result.Threw?) || LevelArgs(rec, levels[|calls|]).Threw?
  }

  /** The facility chain: the village is resolved only after a non-null facility. */
  predicate HfrChain(rec: Record, calls: seq<EnsureCall>)
  {
    Chain(rec, HfrLevels, calls) && (|calls| > FacilityLevel + 1 ==> calls[FacilityLevel].result != Ok(null))
  }

  /** The facility chain stopped where the source stops, a null facility included. */
  predicate HfrEnded(rec: Record, calls: seq<EnsureCall>)
    requires |calls| <= |HfrLevels|
  {
    ChainEnded(rec, HfrLevels, calls) || (|calls| == FacilityLevel + 1 && calls[FacilityLevel].result == Ok(null))
  }

  /** One more level: a call that fits extends a chain whose last call returned a value. */
  lemma ChainGrows(rec: Record, levels: seq<Level>, calls: seq<EnsureCall>, result: Result<Location?>)
    requires Chain(rec, levels, calls) && |calls| < |levels|
    requires calls != [] ==> calls[|calls| - 1].result.Ok?
    requires LevelArgs(rec, levels[|calls|]).Ok?
    ensures Chain(rec, levels, calls + [LevelCall(rec, levels[|calls|], calls, result)])
  {
    assert (calls + [LevelCall(rec, levels[|calls|], calls, result)])[..|calls|] == calls;
  }

  /** One call of a chain: its level's arguments, its parent from the calls before it, and a value from every call before the last. */
  lemma {:induction false} ChainCallAt(rec: Record, levels: seq<Level>, calls: seq<EnsureCall>, i: nat)
    requires Chain(rec, levels, calls) && i < |calls|
    ensures LevelArgs(rec, levels[i]).Ok? && calls[i] == LevelCall(rec, levels[i], calls[..i], calls[i].result)
    ensures i < |calls| - 1 ==> calls[i].result.Ok?
    decreases |calls|
  {
    var n := |calls| - 1;
    if i < n {
      ChainCallAt(rec, levels, calls[..n], i);
      assert calls[..n][..i] == calls[..i];
    }
  }

  /** Joining one member is the member itself. */
  lemma JoinedOne(rec: Record, a: string)
    requires a in rec
    ensures JoinedName(rec, [a]) == Ok(rec[a])
  {
  }

  /** Joining two members puts " - " between them. */
  lemma JoinedTwo(rec: Record, a: string, b: string)
    requires a in rec && b in rec
    ensures JoinedName(rec, [a, b]) == Ok(rec[a] + " - " + rec[b])
  {
    assert [a, b][1..] == [b];
  }

  /** Joining three members puts " - " between each two. */
  lemma JoinedThree(rec: Record, a: string, b: string, c: string)
    requires a in rec && b in rec && c in rec
    ensures JoinedName(rec, [a, b, c]) == Ok(rec[a] + " - " + rec[b] + " - " + rec[c])
  {
    assert [a, b, c][1..] == [b, c];
    JoinedTwo(rec, b, c);
    assert rec[a] + " - " + (rec[b] + " - " + rec[c]) == rec[a] + " - " + rec[b] + " - " + rec[c];
  }

  /** A tag whose length is not six is not Region, whatever its case. */
  lemma NotRegion(tag: string)
    requires |tag| != 6
    ensures !IsRegionTag(tag)
  {
    assert |ToLower(tag)| != |"region"|;
  }

  /** The facility chain's levels down to the facility each hang under the level just before. */
  lemma HfrParentOf(i: nat)
    requires 0 < i <= FacilityLevel
    ensures HfrLevels[i].parent == ResultOf(i - 1)
  {
  }

  /** The facility chain opens with the Region, resolved under no parent by its capitalised name and Region_Code. */
  lemma HfrRegionFirst(rec: Record, calls: seq<EnsureCall>)
    requires Chain(rec, HfrLevels, calls) && |calls| > 0
    ensures "region" in rec && "Region_Code" in rec
    ensures calls[0] == EnsureCall(null, Capitalized(rec["region"]), Some(rec["Region_Code"]), "Region", calls[0].result)
  {
    ChainCallAt(rec, HfrLevels, calls, 0);
    JoinedOne(rec, "region");
  }

  /** Down to the facility, each level is resolved under the node the level before it returned. */
  lemma HfrParentIsPreviousResult(rec: Record, calls: seq<EnsureCall>, i: nat)
    requires Chain(rec, HfrLevels, calls) && 0 < i < |calls| && i <= FacilityLevel
    ensures calls[i - 1].result.Ok? && calls[i].parent == calls[i - 1].result.value
  {
    ChainCallAt(rec, HfrLevels, calls, i - 1);
    ChainCallAt(rec, HfrLevels, calls, i);
    HfrParentOf(i);
    assert calls[..i][i - 1] == calls[i - 1];
  }

  /** The ward is named "ward - council" and the facility "Name - Fac_IDNumber" with Fac_IDNumber as its code, both capitalised. */
  lemma HfrWardAndFacilityNames(rec: Record, calls: seq<EnsureCall>)
    requires Chain(rec, HfrLevels, calls) && |calls| > FacilityLevel
    ensures "ward" in rec && "council" in rec && "ward_Code" in rec && "Name" in rec && "Fac_IDNumber" in rec
    ensures calls[3].name == Capitalized(rec["ward"] + " - " + rec["council"]) && calls[3].code == Some(rec["ward_Code"])
    ensures calls[4].name == Capitalized(rec["Name"] + " - " + rec["Fac_IDNumber"]) &&
            calls[4].code == Some(rec["Fac_IDNumber"]) && calls[4].tag == "Facility"
  {
    ChainCallAt(rec, HfrLevels, calls, 3);
    ChainCallAt(rec, HfrLevels, calls, 4);
    JoinedTwo(rec, "ward", "council");
    JoinedTwo(rec, "Name", "Fac_IDNumber");
  }

  /** The village is resolved, after a non-null facility, under the node the ward level returned, named "village - ward - council". */
  lemma HfrVillageUnderWard(rec: Record, calls: seq<EnsureCall>)
    requires HfrChain(rec, calls) && |calls| == |HfrLevels|
    ensures "village" in rec && "ward" in rec && "council" in rec && "Village_Code" in rec
    ensures calls[3].result.Ok? && calls[4].result.Ok? && calls[4].result.value != null
    ensures calls[5] == EnsureCall(calls[3].result.value, Capitalized(rec["village"] + " - " + rec["ward"] + " - " + rec["council"]),
                                   Some(rec["Village_Code"]), "Village", calls[5].result)
  {
    ChainCallAt(rec, HfrLevels, calls, 3);
    ChainCallAt(rec, HfrLevels, calls, 4);
    ChainCallAt(rec, HfrLevels, calls, 5);
    assert calls[..5][3] == calls[3];
    JoinedThree(rec, "village", "ward", "council");
  }

  // ---------------------------------------------------------------------
  // The code index along a sequence of calls

  /** Whether the code index holds no node for the code (findLocationByCode gives null). */
  predicate Unindexed(codes: map<string, Location>, code: Option<string>)
  {
    code.None? || ToLower(code.value) !in codes
  }

  /** The code index after the calls, each filing what it returned under its code. */
  function CodesAfterCalls(codes: map<string, Location>, calls: seq<EnsureCall>): map<string, Location>
    decreases |calls|
  {
    if calls == [] then codes
    else
      var n := |calls| - 1;
      CodesAfter(CodesAfterCalls(codes, calls[..n]), calls[n].code, calls[n].result)
  }

  /** Filing a call's result adds no node to the index but that result. */
  lemma ValuesAfter(codes: map<string, Location>, code: Option<string>, r: Result<Location?>)
    ensures forall l :: l in CodesAfter(codes, code, r).Values ==> l in codes.Values || (r.Ok? && l == r.value)
  {
    if HasCodeArg(code) && r.Ok? && r.value != null {
      forall l | l in CodesAfter(codes, code, r).Values
        ensures l in codes.Values || l == r.value
      {
        var k :| k in CodesAfter(codes, code, r) && CodesAfter(codes, code, r)[k] == l;
        if k != ToLower(code.value) {
          assert k in codes && codes[k] == l;
        }
      }
    }
  }

  /** The tag is Region, ignoring case. */
  predicate IsRegionTag(tag: string)
  {
    ToLower(tag) == "region"
  }

  /** Region ignoring case, as the resolver compares it. */
  lemma RegionTagIgnoringCase(tag: string)
    ensures IsRegionTag(tag) <==> EqualsIgnoreCase(tag, "Region")
  {
    assert ToLower("Region") == "region" by {
      assert ToLower("n") == "n";
      assert ToLower("on") == "on";
      assert ToLower("ion") == "ion";
      assert ToLower("gion") == "gion";
      assert ToLower("egion") == "egion";
    }
  }

  /** A call without a parent for an unindexed code that is not a Region returned null: nothing was created. */
  predicate OrphanKept(codes: map<string, Location>, call: EnsureCall)
  {
    call.parent == null && !IsRegionTag(call.tag) && Unindexed(codes, call.code) ==>
      call.result == Ok(null)
  }

  /** Every call kept the orphan rule against the code index as it stood just before it. */
  predicate OrphansNotCreated(codes: map<string, Location>, calls: seq<EnsureCall>)
    decreases |calls|
  {
    calls != [] ==>
      var n := |calls| - 1;
      OrphansNotCreated(codes, calls[..n]) && OrphanKept(CodesAfterCalls(codes, calls[..n]), calls[n])
  }

  /** The index after two runs of calls is the index after the first, carried through the second. */
  lemma {:induction false} CodesAfterAppend(codes: map<string, Location>, a: seq<EnsureCall>, b: seq<EnsureCall>)
    ensures CodesAfterCalls(codes, a + b) == CodesAfterCalls(CodesAfterCalls(codes, a), b)
    decreases |b|
  {
    if b == [] {
      assert a + b == a;
    } else {
      var n := |b| - 1;
      assert (a + b)[..|a| + n] == a + b[..n];
      CodesAfterAppend(codes, a, b[..n]);
    }
  }

  /** The orphan rule over two runs of calls follows from the rule over each, the second against the index the first left. */
  lemma {:induction false} OrphansAppend(codes: map<string, Location>, a: seq<EnsureCall>, b: seq<EnsureCall>)
    requires OrphansNotCreated(codes, a) && OrphansNotCreated(CodesAfterCalls(codes, a), b)
    ensures OrphansNotCreated(codes, a + b)
    decreases |b|
  {
    if b == [] {
      assert a + b == a;
    } else {
      var n := |b| - 1;
      assert (a + b)[..|a| + n] == a + b[..n];
      OrphansAppend(codes, a, b[..n]);
      CodesAfterAppend(codes, a, b[..n]);
    }
  }

  /**
   * The administrative chain for a country whose code TZ is not indexed:
   * the Country call returns null, so the Zone is resolved under no
   * parent and is not created either when its code is not indexed.
   */
  lemma AdminMissingCountry(rec: Record, codes: map<string, Location>, calls: seq<EnsureCall>)
    requires Chain(rec, AdminLevels, calls) && OrphansNotCreated(codes, calls)
    requires Unindexed(codes, Some("TZ")) && |calls| >= 2
    ensures calls[0].result == Ok(null) && calls[1].parent == null
    ensures Unindexed(codes, calls[1].code) ==> calls[1].result == Ok(null)
  {
    AdminOpening(rec, calls);
    OrphanAt(codes, calls, 0);
    OrphanAt(codes, calls, 1);
    CodesAfterFirst(codes, calls);
  }

  /** The administrative chain opens with Country (code TZ, no parent) and Zone under what it returned. */
  lemma AdminOpening(rec: Record, calls: seq<EnsureCall>)
    requires Chain(rec, AdminLevels, calls) && |calls| >= 2
    ensures calls[0].parent == null && calls[0].code == Some("TZ") && !IsRegionTag(calls[0].tag)
    ensures calls[0].result.Ok? && calls[1].parent == calls[0].result.value && !IsRegionTag(calls[1].tag)
  {
    ChainCallAt(rec, AdminLevels, calls, 0);
    ChainCallAt(rec, AdminLevels, calls, 1);
    NotRegion("Country");
    NotRegion("Zone");
    assert calls[..1][0] == calls[0];
  }

  /** The index after the first call and the calls before it. */
  lemma CodesAfterFirst(codes: map<string, Location>, calls: seq<EnsureCall>)
    requires |calls| >= 1
    ensures calls[..0] == [] && CodesAfterCalls(codes, calls[..0]) == codes
    ensures CodesAfterCalls(codes, calls[..1]) == CodesAfter(codes, calls[0].code, calls[0].result)
  {
    assert calls[..1][..0] == [] && calls[..1][0] == calls[0];
  }

  /**
   * The administrative chain for a ward whose code the index does not hold
   * when it is resolved: the Ward call returns null (a Ward is never
   * created without a parent), so the Village is resolved under no parent.
   */
  lemma AdminMissingWard(rec: Record, codes: map<string, Location>, calls: seq<EnsureCall>)
    requires Chain(rec, AdminLevels, calls) && OrphansNotCreated(codes, calls) && |calls| == 5
    requires Unindexed(CodesAfterCalls(codes, calls[..3]), calls[3].code)
    ensures calls[3].result == Ok(null) && calls[4].parent == null
  {
    ChainCallAt(rec, AdminLevels, calls, 3);
    ChainCallAt(rec, AdminLevels, calls, 4);
    OrphanAt(codes, calls, 3);
    NotRegion("Ward");
    assert calls[..4][3] == calls[3];
  }

  /** One call of a run that kept the orphan rule kept it against the index as it stood just before it. */
  lemma {:induction false} OrphanAt(codes: map<string, Location>, calls: seq<EnsureCall>, i: nat)
    requires OrphansNotCreated(codes, calls) && i < |calls|
    ensures OrphanKept(CodesAfterCalls(codes, calls[..i]), calls[i])
    decreases |calls|
  {
    var n := |calls| - 1;
    if i < n {
      OrphanAt(codes, calls[..n], i);
      assert calls[..n][..i] == calls[..i];
    }
  }

  // ---------------------------------------------------------------------
  // The drivers

  /**
   * One level of a record: the name members are read and joined, the
   * name capitalised, the code read, and ensureLocationExists called
   * under the given parent. A missing member raises before any call.
   */
  method EnsureLevel(reg: Registry, rec: Record, lv: Level, parent: Location?) returns (r: Result<Location?>)
    modifies reg, reg.server, reg.trace, reg.codeCache.Values
    ensures LevelArgs(rec, lv).Threw? ==>
      r == Threw(MissingJsonKey) && reg.trace.calls == old(reg.trace.calls) && reg.codeCache == old(reg.codeCache) &&
      reg.allLocations == old(reg.allLocations)
    ensures LevelArgs(rec, lv).Ok? ==>
      var args := LevelArgs(rec, lv).value;
      reg.trace.calls == old(reg.trace.calls) + [EnsureCall(parent, Capitalized(args.name), Some(args.code), lv.tag, r)] &&
      reg.codeCache == CodesAfter(old(reg.codeCache), Some(args.code), r) &&
      OrphanKept(old(reg.codeCache), EnsureCall(parent, Capitalized(args.name), Some(args.code), lv.tag, r)) &&
      Listed(reg, r) && (r.Threw? ==> r.error == NullPointer)
    ensures r.Ok? && r.value != null ==> r.value in old(reg.codeCache.Values) || fresh(r.value)
    ensures old(reg.Valid()) ==> reg.Valid()
  {
    var name := JoinedName(rec, lv.nameKeys);
    if name.Threw? {
      return Threw(MissingJsonKey);
    }
    var capitalized := CapitalizeWords(Some(name.value));
    RegionTagIgnoringCase(lv.tag);
    var code: string;
    match lv.code {
      case FixedCode(c) =>
        code := c;
      case CodeMember(k) =>
        var got := GetString(rec, k);
        if got.Threw? {
          return Threw(MissingJsonKey);
        }
        code := got.value;
    }
    r := RecordedEnsure(reg, parent, capitalized.value, Some(code), lv.tag);
  }

  /** The calls are the earlier ones, or the earlier ones and one more. */
  predicate Extends(calls: seq<EnsureCall>, next: seq<EnsureCall>)
  {
    next == calls || (|next| == |calls| + 1 && next[..|calls|] == calls)
  }

  /**
   * The next level of a record's chain: its call extends the chain, or,
   * when a member is missing, the chain ends there with no call.
   */
  method ChainStep(reg: Registry, rec: Record, levels: seq<Level>, k: nat, ghost calls: seq<EnsureCall>,
                   parent: Location?, ghost log0: seq<EnsureCall>)
    returns (r: Result<Location?>, ghost next: seq<EnsureCall>)
    requires k == |calls| < |levels| && Chain(rec, levels, calls) && (calls != [] ==> calls[|calls| - 1].result.Ok?)
    requires parent == LevelParent(levels[|calls|], calls)
    requires reg.trace.calls == log0 + calls
    modifies reg, reg.server, reg.trace, reg.codeCache.Values
    ensures reg.trace.calls == log0 + next && Chain(rec, levels, next) && Extends(calls, next)
    ensures r.Threw? ==> ChainEnded(rec, levels, next)
    ensures r.Ok? ==> |next| == |calls| + 1
    ensures next != calls ==> next[|calls|].result == r
    ensures next == calls ==> reg.codeCache == old(reg.codeCache) && reg.allLocations == old(reg.allLocations)
    ensures next != calls ==>
      reg.codeCache == CodesAfter(old(reg.codeCache), next[|calls|].code, next[|calls|].result) &&
      OrphanKept(old(reg.codeCache), next[|calls|]) && Listed(reg, r)
    ensures forall l :: l in reg.codeCache.Values ==> l in old(reg.codeCache.Values) || fresh(l)
    ensures old(reg.Valid()) ==> reg.Valid()
  {
    r := EnsureLevel(reg, rec, levels[k], parent);
    if LevelArgs(rec, levels[k]).Ok? {
      ValuesAfter(old(reg.codeCache), Some(LevelArgs(rec, levels[k]).value.code), r);
    }
    if LevelArgs(rec, levels[|calls|]).Threw? {
      next := calls;
    } else {
      var call := LevelCall(rec, levels[|calls|], calls, r);
      ChainGrows(rec, levels, calls, r);
      next := calls + [call];
      assert next[..|calls|] == calls;
      assert log0 + calls + [call] == log0 + next;
    }
  }

  /** The code index after one more step of a run of calls, and the orphan rule over it. */
  lemma ThreadStep(codes0: map<string, Location>, calls: seq<EnsureCall>, next: seq<EnsureCall>,
                   before: map<string, Location>)
    requires before == CodesAfterCalls(codes0, calls) && OrphansNotCreated(codes0, calls)
    requires |next| == |calls| + 1 && next[..|calls|] == calls && OrphanKept(before, next[|calls|])
    ensures CodesAfterCalls(codes0, next) == CodesAfter(before, next[|calls|].code, next[|calls|].result)
    ensures OrphansNotCreated(codes0, next)
  {
  }

  /** Every level hangs under an earlier level or under none. */
  predicate Ordered(levels: seq<Level>)
  {
    forall k :: 0 <= k < |levels| && levels[k].parent.ResultOf? ==> levels[k].parent.level < k
  }

  /** Both chains are ordered. */
  lemma ChainsOrdered()
    ensures Ordered(HfrLevels) && Ordered(AdminLevels)
  {
  }

  /**
   * A level of a chain, with the code index and the orphan rule carried
   * along; the code index and the node list gain only the node returned.
   */
  method LevelStep(reg: Registry, rec: Record, levels: seq<Level>, k: nat, ghost calls: seq<EnsureCall>,
                   results: seq<Location?>, ghost log0: seq<EnsureCall>, ghost codes0: map<string, Location>)
    returns (r: Result<Location?>, ghost next: seq<EnsureCall>, results': seq<Location?>)
    requires Ordered(levels) && k == |calls| == |results| < |levels|
    requires Chain(rec, levels, calls) && (calls != [] ==> calls[|calls| - 1].result.Ok?)
    requires forall j :: 0 <= j < k ==> calls[j].result == Ok(results[j])
    requires reg.trace.calls == log0 + calls
    requires reg.codeCache == CodesAfterCalls(codes0, calls) && OrphansNotCreated(codes0, calls)
    modifies reg, reg.server, reg.trace, reg.codeCache.Values
    ensures reg.trace.calls == log0 + next && Chain(rec, levels, next) && Extends(calls, next)
    ensures r.Threw? ==> ChainEnded(rec, levels, next)
    ensures r.Ok? ==> |next| == k + 1 && next[k].result == r && results' == results + [r.value]
    ensures r.Ok? ==> forall j :: 0 <= j < k + 1 ==> next[j].result == Ok(results'[j])
    ensures reg.codeCache == CodesAfterCalls(codes0, next) && OrphansNotCreated(codes0, next)
    ensures forall l :: l in reg.codeCache.Values ==> l in old(reg.codeCache.Values) || fresh(l)
    ensures forall l :: l in reg.allLocations ==> l in old(reg.allLocations) || fresh(l)
    ensures old(reg.Valid()) ==> reg.Valid()
  {
    var parent: Location? := match levels[k].parent
      case NoParent => null
      case ResultOf(j) => results[j];
    r, next := ChainStep(reg, rec, levels, k, calls, parent, log0);
    results' := results;
    if next != calls {
      ThreadStep(codes0, calls, next, old(reg.codeCache));
    }
    if r.Ok? {
      results' := results + [r.value];
      forall j | 0 <= j < k
        ensures next[j].result == Ok(results'[j])
      {
        assert next[j] == next[..k][j] == calls[j];
      }
    }
  }


  /**
   * The levels before `stop`, in order, each under the node its parent
   * level returned; the first exception ends the walk. `done` says every
   * one of them returned, and `results` holds what they returned.
   */
  method ResolveLevels(reg: Registry, rec: Record, levels: seq<Level>, stop: nat)
    returns (done: bool, results: seq<Location?>, ghost calls: seq<EnsureCall>)
    requires stop <= |levels| && Ordered(levels)
    modifies reg, reg.server, reg.trace, reg.codeCache.Values
    ensures reg.trace.calls == old(reg.trace.calls) + calls
    ensures Chain(rec, levels, calls) && |calls| <= stop
    ensures done ==> |calls| == |results| == stop && forall j :: 0 <= j < stop ==> calls[j].result == Ok(results[j])
    ensures !done ==> ChainEnded(rec, levels, calls)
    ensures reg.codeCache == CodesAfterCalls(old(reg.codeCache), calls) && OrphansNotCreated(old(reg.codeCache), calls)
    ensures forall l :: l in reg.codeCache.Values ==> l in old(reg.codeCache.Values) || fresh(l)
    ensures forall l :: l in reg.allLocations ==> l in old(reg.allLocations) || fresh(l)
    ensures old(reg.Valid()) ==> reg.Valid()
  {
    ghost var log0 := reg.trace.calls;
    ghost var codes0 := reg.codeCache;
    calls := [];
    results := [];
    assert log0 + calls == log0;
    var k := 0;
    while k < stop
      invariant k == |calls| == |results| <= stop
      invariant Chain(rec, levels, calls) && (calls != [] ==> calls[|calls| - 1].result.Ok?)
      invariant forall j :: 0 <= j < k ==> calls[j].result == Ok(results[j])
      invariant reg.trace.calls == log0 + calls
      invariant reg.codeCache == CodesAfterCalls(codes0, calls) && OrphansNotCreated(codes0, calls)
      invariant forall l :: l in reg.codeCache.Values ==> l in old(reg.codeCache.Values) || fresh(l)
      invariant forall l :: l in reg.allLocations ==> l in old(reg.allLocations) || fresh(l)
      invariant old(reg.Valid()) ==> reg.Valid()
    {
      var r: Result<Location?>;
      r, calls, results := LevelStep(reg, rec, levels, k, calls, results, log0, codes0);
      if r.Threw? {
        return false, results, calls;
      }
      k := k + 1;
    }
    done := true;
  }

  /**
   * One record of processAdminHierarchyData: Country (code TZ, no
   * parent), Zone, Region, then Ward (no parent) and Village. An exception
   * is caught and skips the rest of the record.
   */
  method ProcessAdminRecord(reg: Registry, rec: Record) returns (ghost calls: seq<EnsureCall>)
    modifies reg, reg.server, reg.trace, reg.codeCache.Values
    ensures reg.trace.calls == old(reg.trace.calls) + calls
    ensures Chain(rec, AdminLevels, calls) && ChainEnded(rec, AdminLevels, calls)
    ensures reg.codeCache == CodesAfterCalls(old(reg.codeCache), calls) && OrphansNotCreated(old(reg.codeCache), calls)
    ensures forall l :: l in reg.codeCache.Values ==> l in old(reg.codeCache.Values) || fresh(l)
    ensures old(reg.Valid()) ==> reg.Valid()
  {
    ChainsOrdered();
    var done, results;
    done, results, calls := ResolveLevels(reg, rec, AdminLevels, |AdminLevels|);
  }

  /** The index a realignment leaves holds only nodes it held before or realigned villages. */
  lemma CacheFromValues(c0: map<string, Location>, c: map<string, Location>, rec: Record, targets: set<Location>)
    requires CacheFrom(c0, c, rec, targets)
    ensures forall l :: l in c.Values ==> l in c0.Values || l in targets
  {
    if c != c0 {
      var key := ToLower(rec["Village_Code"]);
      forall l | l in c.Values
        ensures l in c0.Values || l in targets
      {
        var k :| k in c && c[k] == l;
        if k != key {
          assert k in c0 && c0[k] == l;
        }
      }
    }
  }

  /** The nodes an HFR record may change: those the code index holds and those in the node list. */
  ghost function Nodes(reg: Registry): (r: set<Location>)
    reads reg
    ensures reg.codeCache.Values <= r
    ensures forall l :: l in reg.allLocations ==> l in r
  {
    reg.codeCache.Values + set l | l in reg.allLocations
  }

  /**
   * The realignment step of an HFR record: when the facility has a parent,
   * getChildLocation runs for the villages filed under the facility, and
   * an exception it raises is logged and dropped. It touches no node
   * outside the node list and leaves the list as it was.
   */
  method RealignVillages(reg: Registry, rec: Record, facility: Location) returns (realigned: bool)
    modifies reg, reg.server, Nodes(reg)
    ensures realigned <==> old(facility.parentLocation) != null
    ensures !realigned ==> reg.codeCache == old(reg.codeCache) && unchanged(reg.server)
    ensures reg.allLocations == old(reg.allLocations) && Nodes(reg) <= old(Nodes(reg))
    ensures old(reg.Valid()) ==> reg.Valid()
  {
    realigned := false;
    if facility.parentLocation != null {
      ghost var c0 := reg.codeCache;
      ghost var targets := ChildVillages(reg, facility.locationId);
      var ignored := GetChildLocation(reg, facility.locationId, facility.parentLocation.locationId, rec);
      CacheFromValues(c0, reg.codeCache, rec, targets);
      realigned := true;
    }
  }

  /** A resolution step that keeps or appends to the node list adds only new nodes to Nodes. */
  twostate lemma NodesAfterStep(reg: Registry, new r: Result<Location?>)
    requires Listed(reg, r)
    requires forall l :: l in reg.codeCache.Values ==> l in old(reg.codeCache.Values) || fresh(l)
    ensures forall l :: l in Nodes(reg) ==> l in old(Nodes(reg)) || fresh(l)
  {
    forall l | l in Nodes(reg)
      ensures l in old(Nodes(reg)) || fresh(l)
    {
      if l !in reg.codeCache.Values && l !in old(reg.allLocations) {
        assert reg.allLocations != old(reg.allLocations);
      }
    }
  }

  /** Once the Village step has run after a non-null facility, the HFR record's calls are complete. */
  lemma VillageCloses(rec: Record, calls: seq<EnsureCall>, next: seq<EnsureCall>, r: Result<Location?>)
    requires |calls| == FacilityLevel + 1 && calls[FacilityLevel].result.Ok? && calls[FacilityLevel].result.value != null
    requires Chain(rec, HfrLevels, next) && Extends(calls, next)
    requires r.Threw? ==> ChainEnded(rec, HfrLevels, next)
    requires r.Ok? ==> |next| == |calls| + 1
    ensures HfrChain(rec, next) && HfrEnded(rec, next)
  {
  }

  /**
   * The rest of an HFR record once its facility is resolved to a node:
   * the villages filed under it are realigned when it has a parent (an
   * exception there is logged and dropped), then the Village is resolved
   * under the ward.
   */
  method FacilityTail(reg: Registry, rec: Record, ghost calls: seq<EnsureCall>, ward: Location?, facility: Location,
                      ghost log0: seq<EnsureCall>)
    returns (ghost next: seq<EnsureCall>, ghost realigned: bool)
    requires |calls| == FacilityLevel + 1 && Chain(rec, HfrLevels, calls) && calls[FacilityLevel].result == Ok(facility as Location?)
    requires ward == LevelParent(HfrLevels[FacilityLevel + 1], calls)
    requires reg.trace.calls == log0 + calls
    modifies reg, reg.server, reg.trace, Nodes(reg)
    ensures reg.trace.calls == log0 + next
    ensures HfrChain(rec, next) && HfrEnded(rec, next) && Extends(calls, next)
    ensures realigned <==> old(facility.parentLocation) != null
    ensures forall l :: l in Nodes(reg) ==> l in old(Nodes(reg)) || fresh(l)
    ensures old(reg.Valid()) ==> reg.Valid()
  {
    ghost var start := Nodes(reg);
    realigned := RealignVillages(reg, rec, facility);
    label Realigned:
    var village: Result<Location?>;
    village, next := ChainStep(reg, rec, HfrLevels, FacilityLevel + 1, calls, ward, log0);
    NodesAfterStep@Realigned(reg, village);
    VillageCloses(rec, calls, next, village);
  }

  /**
   * One record of processHfrResponse: Region (no parent), District,
   * Council, Ward and Facility in turn, then FacilityTail. A null facility
   * raises when its parent is read, which skips the rest of the record; any
   * other exception also skips the rest of the record.
   */
  method ProcessHfrRecord(reg: Registry, rec: Record) returns (ghost calls: seq<EnsureCall>, ghost realigned: bool)
    modifies reg, reg.server, reg.trace, Nodes(reg)
    ensures reg.trace.calls == old(reg.trace.calls) + calls
    ensures HfrChain(rec, calls) && HfrEnded(rec, calls)
    ensures realigned ==>
      |calls| > FacilityLevel && calls[FacilityLevel].result.Ok? && calls[FacilityLevel].result.value != null
    ensures forall l :: l in Nodes(reg) ==> l in old(Nodes(reg)) || fresh(l)
    ensures old(reg.Valid()) ==> reg.Valid()
  {
    ChainsOrdered();
    var done, results;
    done, results, calls := ResolveLevels(reg, rec, HfrLevels, FacilityLevel + 1);
    realigned := false;
    if !done || results[FacilityLevel] == null {
      return;
    }
    calls, realigned := FacilityTail(reg, rec, calls, results[3], results[FacilityLevel], old(reg.trace.calls));
  }

  /** All the runs of calls, one after the other. */
  function Flatten(runs: seq<seq<EnsureCall>>): seq<EnsureCall>
    decreases |runs|
  {
    if runs == [] then [] else Flatten(runs[..|runs| - 1]) + runs[|runs| - 1]
  }

  /** One more run at the end of the log: the log grows by that run. */
  lemma FlattenStep(log0: seq<EnsureCall>, runs: seq<seq<EnsureCall>>, run: seq<EnsureCall>)
    ensures Flatten(runs + [run]) == Flatten(runs) + run
    ensures log0 + Flatten(runs) + run == log0 + Flatten(runs + [run])
  {
    assert (runs + [run])[..|runs|] == runs;
  }

  /** A record processHfrResponse got past: it has a Fac_IDNumber and its calls follow the HFR chain to its end. */
  predicate HfrRecordDone(rec: Record, calls: seq<EnsureCall>)
  {
    "Fac_IDNumber" in rec && HfrChain(rec, calls) && HfrEnded(rec, calls)
  }

  /**
   * processHfrResponse. Each record's Fac_IDNumber is read outside the
   * record's try block, so a record without it ends the whole page with
   * the exception; every other exception stays inside its record.
   * `perRecord` holds the calls each processed record made.
   */
  method ProcessHfrResponse(reg: Registry, response: seq<Record>)
    returns (r: Result<()>, ghost perRecord: seq<seq<EnsureCall>>)
    modifies reg, reg.server, reg.trace, Nodes(reg)
    ensures |perRecord| <= |response|
    ensures r.Ok? <==> |perRecord| == |response|
    ensures r.Threw? ==> r.error == MissingJsonKey && "Fac_IDNumber" !in response[|perRecord|]
    ensures forall i :: 0 <= i < |perRecord| ==> HfrRecordDone(response[i], perRecord[i])
    ensures reg.trace.calls == old(reg.trace.calls) + Flatten(perRecord)
    ensures old(reg.Valid()) ==> reg.Valid()
  {
    perRecord := [];
    var i := 0;
    while i < |response|
      invariant 0 <= i <= |response| && |perRecord| == i
      invariant forall j :: 0 <= j < i ==> HfrRecordDone(response[j], perRecord[j])
      invariant reg.trace.calls == old(reg.trace.calls) + Flatten(perRecord)
      invariant forall l :: l in Nodes(reg) ==> l in old(Nodes(reg)) || fresh(l)
      invariant old(reg.Valid()) ==> reg.Valid()
    {
      var hfrCode := GetString(response[i], "Fac_IDNumber");
      if hfrCode.Threw? {
        return Threw(MissingJsonKey), perRecord;
      }
      ghost var calls, realigned := ProcessHfrRecord(reg, response[i]);
      FlattenStep(old(reg.trace.calls), perRecord, calls);
      ghost var prev := perRecord;
      perRecord := perRecord + [calls];
      forall j | 0 <= j < i + 1
        ensures HfrRecordDone(response[j], perRecord[j])
      {
        if j < i {
          assert perRecord[j] == prev[j];
        }
      }
      i := i + 1;
    }
    r := Ok(());
  }

  /** A hierarchy record's calls follow the hierarchy chain to its end. */
  predicate AdminRecordDone(rec: Record, calls: seq<EnsureCall>)
  {
    Chain(rec, AdminLevels, calls) && ChainEnded(rec, AdminLevels, calls)
  }

  /**
   * processAdminHierarchyData. Every exception stays inside its record,
   * so every record is processed; along the whole page no orphan other
   * than a Region is created.
   */
  method ProcessAdminHierarchyData(reg: Registry, response: seq<Record>) returns (ghost perRecord: seq<seq<EnsureCall>>)
    modifies reg, reg.server, reg.trace, reg.codeCache.Values
    ensures |perRecord| == |response|
    ensures forall i :: 0 <= i < |response| ==> AdminRecordDone(response[i], perRecord[i])
    ensures reg.trace.calls == old(reg.trace.calls) + Flatten(perRecord)
    ensures reg.codeCache == CodesAfterCalls(old(reg.codeCache), Flatten(perRecord))
    ensures OrphansNotCreated(old(reg.codeCache), Flatten(perRecord))
    ensures old(reg.Valid()) ==> reg.Valid()
  {
    perRecord := [];
    var i := 0;
    while i < |response|
      invariant 0 <= i <= |response| && |perRecord| == i
      invariant forall j :: 0 <= j < i ==> AdminRecordDone(response[j], perRecord[j])
      invariant reg.trace.calls == old(reg.trace.calls) + Flatten(perRecord)
      invariant reg.codeCache == CodesAfterCalls(old(reg.codeCache), Flatten(perRecord))
      invariant OrphansNotCreated(old(reg.codeCache), Flatten(perRecord))
      invariant forall l :: l in reg.codeCache.Values ==> l in old(reg.codeCache.Values) || fresh(l)
      invariant old(reg.Valid()) ==> reg.Valid()
    {
      ghost var calls := ProcessAdminRecord(reg, response[i]);
      CodesAfterAppend(old(reg.codeCache), Flatten(perRecord), calls);
      OrphansAppend(old(reg.codeCache), Flatten(perRecord), calls);
      FlattenStep(old(reg.trace.calls), perRecord, calls);
      ghost var prev := perRecord;
      perRecord := perRecord + [calls];
      forall j | 0 <= j < i + 1
        ensures AdminRecordDone(response[j], perRecord[j])
      {
        if j < i {
          assert perRecord[j] == prev[j];
        }
      }
      i := i + 1;
    }
  }

  // ---------------------------------------------------------------------
  // The page fetch retries

  /** How many times fetchHfrData tries the facility feed. */
  const HfrFetchAttempts: nat := 200

  /** How many times fetchHfrAdminHierarchyData tries the hierarchy feed. */
  const AdminFetchAttempts: nat := 3

  /**
   * fetchHfrData: the fetch from the given page is retried until one
   * attempt does not throw, at most 200 times; running out of attempts is
   * logged and nothing is raised. `fetched` says whether an attempt went
   * through.
   */
  method FetchHfrData(server: Server, currentPage: int) returns (fetched: bool)
    modifies server
    ensures server.sent == old(server.sent) +
      Repeat(PageRequest(HfrFacilities, currentPage), Attempts(server.script, |old(server.sent)|, HfrFetchAttempts, UntilNoThrow))
    ensures fetched == Stopped(server.script, |old(server.sent)|, HfrFetchAttempts, UntilNoThrow)
  {
    var last;
    last, fetched := server.SendWithRetries(PageRequest(HfrFacilities, currentPage), HfrFetchAttempts, UntilNoThrow);
  }

  /** fetchHfrAdminHierarchyData: as fetchHfrData for the hierarchy feed, at most 3 times. */
  method FetchHfrAdminHierarchyData(server: Server, currentPage: int) returns (fetched: bool)
    modifies server
    ensures server.sent == old(server.sent) +
      Repeat(PageRequest(HfrAdminHierarchy, currentPage),
             Attempts(server.script, |old(server.sent)|, AdminFetchAttempts, UntilNoThrow))
    ensures fetched == Stopped(server.script, |old(server.sent)|, AdminFetchAttempts, UntilNoThrow)
  {
    var last;
    last, fetched := server.SendWithRetries(PageRequest(HfrAdminHierarchy, currentPage), AdminFetchAttempts, UntilNoThrow);
  }

  /**
   * A page fetch loop makes between one and `max` attempts and stops at
   * the first attempt that does not throw: every attempt before it threw,
   * and it went through exactly when it stopped short of `max` or the
   * last attempt did not throw.
   */
  lemma FetchStopsAtFirstSuccess(script: nat -> Reply, start: nat, max: nat)
    requires max > 0
    ensures var n := Attempts(script, start, max, UntilNoThrow);
      1 <= n <= max &&
      (forall k :: start <= k < start + n - 1 ==> script(k).Failed?) &&
      (n < max ==> script(start + n - 1).Answered?) &&
      (Stopped(script, start, max, UntilNoThrow) <==> script(start + n - 1).Answered?)
  {
    AttemptsIsFirstStop(script, start, max, UntilNoThrow);
  }

  /** A fetch that throws every time is tried exactly `max` times, and the loop ends without raising. */
  lemma FetchGivesUp(script: nat -> Reply, start: nat, max: nat)
    requires forall k :: start <= k < start + max ==> script(k).Failed?
    ensures Attempts(script, start, max, UntilNoThrow) == max
    ensures !Stopped(script, start, max, UntilNoThrow)
  {
    AllAttemptsWhenNoneStops(script, start, max, UntilNoThrow);
  }
}
