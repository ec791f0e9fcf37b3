/**
 * The engine's shared state: the node list and the two case-insensitive
 * indexes that Main holds as static fields, the lookups Utils performs on
 * them, and the loop in Main.main that builds the indexes from the fetched
 * nodes.
 */
module State {
  import opened Wrappers
  import opened Strings
  import opened Domain
  import opened Remote

  /** A JSON object of a feed, reduced to its string members. */
  type Record = map<string, string>

  /** JSONObject.getString: the member, or a JSONException when it is missing. */
  function GetString(rec: Record, key: string): (r: Result<string>)
    ensures r.Ok? <==> key in rec
    ensures r.Ok? ==> r.value == rec[key]
    ensures r.Threw? ==> r.error == MissingJsonKey
  {
    if key in rec then Ok(rec[key]) else Threw(MissingJsonKey)
  }

  /** One call of ensureLocationExists: its arguments and its outcome. */
  datatype EnsureCall = EnsureCall(parent: Location?, name: string, code: Option<string>, tag: string,
                                   result: Result<Location?>)

  /** The two index maps while they are being filled, and whether the filling threw. */
  datatype Indexes = Indexes(ids: map<string, Location>, codes: map<string, Location>, crashed: bool)

  /**
   * The code under which the index loop files a node: `HFR Code` for a node
   * tagged Facility, `Code` for any other, none when that attribute is
   * missing. Looking at the tags of a node that has either attribute throws
   * when its tag set is null.
   */
  function CodeKey(loc: Location): (r: Result<Option<string>>)
    reads loc
    ensures r.Threw? ==> r.error == NullPointer
  {
    var attrs := loc.attributes;
    if attrs.None? || ("Code" !in attrs.value && "HFR Code" !in attrs.value) then Ok(None)
    else if loc.tags.None? then Threw(NullPointer)
    else if "Facility" in loc.tags.value then
      (if "HFR Code" in attrs.value then Ok(Some(attrs.value["HFR Code"])) else Ok(None))
    else
      (if "Code" in attrs.value then Ok(Some(attrs.value["Code"])) else Ok(None))
  }

  /** What one turn of the index loop does to the maps. A node without an id is skipped. */
  function IndexStep(ix: Indexes, loc: Location): Indexes
    requires !ix.crashed
    reads loc
  {
    if loc.locationId.None? then ix
    else
      var ids := ix.ids[ToLower(loc.locationId.value) := loc];
      match CodeKey(loc)
      case Threw(_) => Indexes(ids, ix.codes, true)
      case Ok(None) => Indexes(ids, ix.codes, false)
      case Ok(Some(c)) => Indexes(ids, ix.codes[ToLower(c) := loc], false)
  }

  /** The whole index loop over a node list; a throw ends it. */
  function IndexAll(locs: seq<Location>, ix: Indexes): Indexes
    reads locs
    decreases |locs|
  {
    if locs == [] || ix.crashed then ix else IndexAll(locs[1..], IndexStep(ix, locs[0]))
  }

  /** One turn of the index loop, taken from position `i` of the list. */
  lemma IndexAllUnfold(locs: seq<Location>, i: nat, ix: Indexes)
    requires i < |locs| && !ix.crashed
    ensures IndexAll(locs[i..], ix) == IndexAll(locs[i + 1..], IndexStep(ix, locs[i]))
  {
    assert locs[i..][1..] == locs[i + 1..];
  }

  /** The values of the maps stay among the nodes when they started there. */
  lemma IndexKeepsValues(locs: seq<Location>, ix: Indexes)
    requires forall k :: k in ix.ids ==> ix.ids[k] in locs
    requires forall k :: k in ix.codes ==> ix.codes[k] in locs
    ensures var r := IndexAll(locs, ix);
      (forall k :: k in r.ids ==> r.ids[k] in locs) && (forall k :: k in r.codes ==> r.codes[k] in locs)
  {
    IndexValuesFrom(locs, ix);
  }

  /** A node on which the index loop throws. */
  predicate Crashes(loc: Location)
    reads loc
  {
    loc.locationId.Some? && CodeKey(loc).Threw?
  }

  /** The lower-cased id a node is filed under, if it has an id. */
  function IdKey(loc: Location): Option<string>
    reads loc
  {
    if loc.locationId.None? then None else Some(ToLower(loc.locationId.value))
  }

  /** The lower-cased code a node is filed under, if the loop files it by code. */
  function FiledCode(loc: Location): Option<string>
    reads loc
  {
    if loc.locationId.Some? && CodeKey(loc).Ok? && CodeKey(loc).value.Some?
    then Some(ToLower(CodeKey(loc).value.value))
    else None
  }

  /** The loop throws exactly when some node has an id, a code attribute and a null tag set. */
  lemma {:induction false} IndexCrashIff(locs: seq<Location>, ix: Indexes)
    requires !ix.crashed
    ensures IndexAll(locs, ix).crashed <==> exists i :: 0 <= i < |locs| && Crashes(locs[i])
    decreases |locs|
  {
    if locs != [] {
      var next := IndexStep(ix, locs[0]);
      assert next.crashed <==> Crashes(locs[0]);
      if !next.crashed {
        IndexCrashIff(locs[1..], next);
        if exists i :: 0 <= i < |locs| && Crashes(locs[i]) {
          var i :| 0 <= i < |locs| && Crashes(locs[i]);
          assert i > 0 && Crashes(locs[1..][i - 1]);
        }
        if exists i :: 0 <= i < |locs[1..]| && Crashes(locs[1..][i]) {
          var i :| 0 <= i < |locs[1..]| && Crashes(locs[1..][i]);
          assert Crashes(locs[i + 1]);
        }
      }
    }
  }

  /** Every value in the maps was either there before or is one of the nodes. */
  lemma {:induction false} IndexValuesFrom(locs: seq<Location>, ix: Indexes)
    ensures var r := IndexAll(locs, ix);
      (forall k :: k in r.ids ==> r.ids[k] in ix.ids.Values || r.ids[k] in locs) &&
      (forall k :: k in r.codes ==> r.codes[k] in ix.codes.Values || r.codes[k] in locs)
    decreases |locs|
  {
    if locs != [] && !ix.crashed {
      var next := IndexStep(ix, locs[0]);
      IndexValuesFrom(locs[1..], next);
      var r := IndexAll(locs, ix);
      assert r == IndexAll(locs[1..], next);
      forall k | k in r.ids ensures r.ids[k] in ix.ids.Values || r.ids[k] in locs {
        var v := r.ids[k];
        if v in next.ids.Values {
          var k' :| k' in next.ids && next.ids[k'] == v;
          if v != locs[0] {
            assert k' in ix.ids && ix.ids[k'] == v;
          }
        } else {
          assert v in locs[1..];
        }
      }
      forall k | k in r.codes ensures r.codes[k] in ix.codes.Values || r.codes[k] in locs {
        var v := r.codes[k];
        if v in next.codes.Values {
          var k' :| k' in next.codes && next.codes[k'] == v;
          if v != locs[0] {
            assert k' in ix.codes && ix.codes[k'] == v;
          }
        } else {
          assert v in locs[1..];
        }
      }
    }
  }

  /**
   * When two nodes share an id (ignoring case) the later one wins: a node
   * with an id that no later node shares ends up in the id map.
   */
  lemma {:induction false} IdIndexKeepsLatest(locs: seq<Location>, ix: Indexes, i: nat)
    requires !IndexAll(locs, ix).crashed
    requires i < |locs| && IdKey(locs[i]).Some?
    requires forall j :: i < j < |locs| ==> IdKey(locs[j]) != IdKey(locs[i])
    ensures IdKey(locs[i]).value in IndexAll(locs, ix).ids
    ensures IndexAll(locs, ix).ids[IdKey(locs[i]).value] == locs[i]
    decreases |locs|
  {
    var next := IndexStep(ix, locs[0]);
    if i == 0 {
      IdIndexUntouched(locs[1..], next, IdKey(locs[0]).value);
    } else {
      IdIndexKeepsLatest(locs[1..], next, i - 1);
    }
  }

  /** A key that no node of the list is filed under keeps its entry in the id map. */
  lemma {:induction false} IdIndexUntouched(locs: seq<Location>, ix: Indexes, k: string)
    requires forall j :: 0 <= j < |locs| ==> IdKey(locs[j]) != Some(k)
    ensures var r := IndexAll(locs, ix);
      (k in r.ids <==> k in ix.ids) && (k in ix.ids ==> r.ids[k] == ix.ids[k])
    decreases |locs|
  {
    if locs != [] && !ix.crashed {
      IdIndexUntouched(locs[1..], IndexStep(ix, locs[0]), k);
    }
  }

  /**
   * The code map keeps the latest node filed under each code, with Code
   * for ordinary nodes and HFR Code for facilities.
   */
  lemma {:induction false} CodeIndexKeepsLatest(locs: seq<Location>, ix: Indexes, i: nat)
    requires !IndexAll(locs, ix).crashed
    requires i < |locs| && FiledCode(locs[i]).Some?
    requires forall j :: i < j < |locs| ==> FiledCode(locs[j]) != FiledCode(locs[i])
    ensures FiledCode(locs[i]).value in IndexAll(locs, ix).codes
    ensures IndexAll(locs, ix).codes[FiledCode(locs[i]).value] == locs[i]
    decreases |locs|
  {
    var next := IndexStep(ix, locs[0]);
    if i == 0 {
      CodeIndexUntouched(locs[1..], next, FiledCode(locs[0]).value);
    } else {
      CodeIndexKeepsLatest(locs[1..], next, i - 1);
    }
  }

  /** A code that no node of the list is filed under keeps its entry in the code map. */
  lemma {:induction false} CodeIndexUntouched(locs: seq<Location>, ix: Indexes, k: string)
    requires forall j :: 0 <= j < |locs| ==> FiledCode(locs[j]) != Some(k)
    ensures var r := IndexAll(locs, ix);
      (k in r.codes <==> k in ix.codes) && (k in ix.codes ==> r.codes[k] == ix.codes[k])
    decreases |locs|
  {
    if locs != [] && !ix.crashed {
      CodeIndexUntouched(locs[1..], IndexStep(ix, locs[0]), k);
    }
  }

  /** The record of every ensureLocationExists call, in order, kept so that the feed drivers can be specified. */
  class CallLog {
    ghost var calls: seq<EnsureCall>

    constructor ()
      ensures calls == []
    {
      calls := [];
    }

    /** Appends one call to the record. */
    method Record(call: EnsureCall)
      modifies this
      ensures calls == old(calls) + [call]
    {
      calls := calls + [call];
    }
  }

  /** Every node either index holds is in the node list. */
  ghost predicate IndexedWithin(ids: map<string, Location>, codes: map<string, Location>, locs: seq<Location>)
  {
    (forall k :: k in ids ==> ids[k] in locs) && (forall k :: k in codes ==> codes[k] in locs)
  }

  /**
   * Main's shared state. `server` stands for the remote registry, the two
   * attribute-type uuids come from configuration, and `trace` records every
   * call of ensureLocationExists so that the feed drivers can be specified.
   */
  class Registry {
    var allLocations: seq<Location>
    var locationCache: map<string, Location>
    var codeCache: map<string, Location>
    const server: Server
    const codeType: string
    const hfrCodeType: string
    const trace: CallLog

    /** Every indexed node is in the node list. */
    ghost predicate Valid()
      reads this
    {
      IndexedWithin(locationCache, codeCache, allLocations)
    }

    /** The state right after the nodes are fetched: both indexes empty. */
    constructor (server: Server, codeType: string, hfrCodeType: string, fetched: seq<Location>)
      ensures this.server == server && this.codeType == codeType && this.hfrCodeType == hfrCodeType
      ensures allLocations == fetched && locationCache == map[] && codeCache == map[]
      ensures fresh(trace) && trace.calls == []
      ensures Valid()
    {
      this.server := server;
      this.codeType := codeType;
      this.hfrCodeType := hfrCodeType;
      allLocations := fetched;
      locationCache := map[];
      codeCache := map[];
      trace := new CallLog();
    }

    /** findLocationByCode: null for a null code, else the code map at the lower-cased code. */
    function FindLocationByCode(code: Option<string>): (r: Location?)
      reads this
      ensures code.None? ==> r == null
      ensures code.Some? ==> (r != null <==> ToLower(code.value) in codeCache)
      ensures r != null ==> r == codeCache[ToLower(code.value)]
    {
      if code.None? || ToLower(code.value) !in codeCache then null else codeCache[ToLower(code.value)]
    }

    /** findLocationByUuid: null for a null id, else the id map at the lower-cased id. */
    function FindLocationByUuid(uuid: Option<string>): (r: Location?)
      reads this
      ensures uuid.None? ==> r == null
      ensures uuid.Some? ==> (r != null <==> ToLower(uuid.value) in locationCache)
      ensures r != null ==> r == locationCache[ToLower(uuid.value)]
    {
      if uuid.None? || ToLower(uuid.value) !in locationCache then null else locationCache[ToLower(uuid.value)]
    }

    /**
     * One turn of the cache initialisation loop: the node is filed under its
     * lower-cased id and, when it has one, its lower-cased code. `crashed`
     * reports the NullPointerException hasTag throws on a null tag set.
     */
    method IndexOne(loc: Location) returns (crashed: bool)
      modifies this
      ensures allLocations == old(allLocations)
      ensures Indexes(locationCache, codeCache, crashed) == IndexStep(Indexes(old(locationCache), old(codeCache), false), loc)
    {
      crashed := false;
      if loc.locationId.Some? {
        locationCache := locationCache[ToLower(loc.locationId.value) := loc];
        var attrs := loc.attributes;
        if attrs.Some? && "Code" in attrs.value {
          if loc.tags.None? {
            return true;
          }
          if "Facility" !in loc.tags.value {
            codeCache := codeCache[ToLower(attrs.value["Code"]) := loc];
          } else if "HFR Code" in attrs.value {
            codeCache := codeCache[ToLower(attrs.value["HFR Code"]) := loc];
          }
        } else if attrs.Some? && "HFR Code" in attrs.value {
          if loc.tags.None? {
            return true;
          }
          if "Facility" in loc.tags.value {
            codeCache := codeCache[ToLower(attrs.value["HFR Code"]) := loc];
          }
        }
      }
    }

    /**
     * The cache initialisation loop of Main.main. The result reports the
     * NullPointerException thrown by hasTag on a node whose tag set is null;
     * the maps then hold what was put before the throw.
     */
    method InitializeCaches() returns (r: Result<()>)
      modifies this
      ensures allLocations == old(allLocations)
      ensures var ix := IndexAll(allLocations, Indexes(old(locationCache), old(codeCache), false));
        locationCache == ix.ids && codeCache == ix.codes && (r.Threw? <==> ix.crashed)
      ensures r.Threw? ==> r.error == NullPointer
      ensures old(Valid()) ==> Valid()
    {
      ghost var start := Indexes(locationCache, codeCache, false);
      ghost var wasValid := Valid();
      r := Ok(());
      var i := 0;
      while i < |allLocations|
        invariant 0 <= i <= |allLocations|
        invariant allLocations == old(allLocations) && r == Ok(())
        invariant IndexAll(allLocations, start) == IndexAll(allLocations[i..], Indexes(locationCache, codeCache, false))
      {
        IndexAllUnfold(allLocations, i, Indexes(locationCache, codeCache, false));
        var crashed := IndexOne(allLocations[i]);
        if crashed {
          r := Threw(NullPointer);
          break;
        }
        i := i + 1;
      }
      assert r.Ok? ==> allLocations[i..] == [];
      if wasValid {
        IndexKeepsValues(allLocations, start);
      }
    }
  }
}
