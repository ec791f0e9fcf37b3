/**
 * Main.createNewLocation: posts a new node with up to 10 attempts and, on a
 * 200 or 201 answer, builds the local node from the returned uuid and name,
 * the requested tags, the attributes filed under their local names and the
 * parent looked up by id. Any other status gives null at once; only a throw
 * (no answer, or an answer without uuid or name) is retried.
 */
module Creation {
  import opened Wrappers
  import opened Domain
  import opened Remote
  import opened State

  /** How many attempts a create makes. */
  const CreateAttempts: nat := 10

  /**
   * The attribute map of a created node: only Code when the general code
   * type was sent, otherwise only HFR Code when the facility code type was,
   * otherwise the map as sent; empty when nothing was sent.
   */
  function CreatedAttributes(attributes: map<string, string>, codeType: string, hfrCodeType: string): map<string, string>
  {
    if attributes == map[] then map[]
    else if codeType in attributes then map["Code" := attributes[codeType]]
    else if hfrCodeType in attributes then map["HFR Code" := attributes[hfrCodeType]]
    else attributes
  }

  /** The create loop stopped on an answer of 200 or 201 (which then carries a uuid and a name). */
  predicate CreateSucceeded(script: nat -> Reply, start: nat)
  {
    Stopped(script, start, CreateAttempts, UntilAnswer) &&
    (LastReply(script, start, CreateAttempts, UntilAnswer).status == 200 ||
     LastReply(script, start, CreateAttempts, UntilAnswer).status == 201)
  }

  /**
   * createNewLocation. The request carries the name, the parent id, the
   * tags and the attributes as given; the server log grows by one copy per
   * attempt. The result is a new node exactly when the create succeeded.
   */
  method CreateNewLocation(reg: Registry, name: string, parentUuid: Option<string>, tags: set<string>,
                           attributes: map<string, string>) returns (r: Location?)
    modifies reg.server
    ensures var start := |old(reg.server.sent)|;
      reg.server.sent == old(reg.server.sent) +
        Repeat(CreateRequest(name, parentUuid, tags, attributes), Attempts(reg.server.script, start, CreateAttempts, UntilAnswer))
    ensures r != null <==> CreateSucceeded(reg.server.script, |old(reg.server.sent)|)
    ensures r != null ==> fresh(r) && r.locationId.Some? && r.name.Some?
    ensures r != null ==>
      var last := LastReply(reg.server.script, |old(reg.server.sent)|, CreateAttempts, UntilAnswer);
      r.Value() == LocationValue(last.uuid, last.name, None, reg.FindLocationByUuid(parentUuid), Some(tags),
                                 Some(CreatedAttributes(attributes, reg.codeType, reg.hfrCodeType)))
  {
    var last, stopped := reg.server.SendWithRetries(CreateRequest(name, parentUuid, tags, attributes), CreateAttempts, UntilAnswer);
    if stopped && (last.status == 200 || last.status == 201) {
      var created := new Location.Empty();
      created.SetLocationId(last.uuid);
      created.SetName(last.name);
      var localAttributes: map<string, string> := map[];
      if attributes != map[] {
        if reg.codeType in attributes {
          localAttributes := map["Code" := attributes[reg.codeType]];
        } else if reg.hfrCodeType in attributes {
          localAttributes := map["HFR Code" := attributes[reg.hfrCodeType]];
        } else {
          localAttributes := attributes;
        }
      }
      created.SetAttributes(Some(localAttributes));
      created.SetTags(Some(tags));
      if parentUuid.Some? {
        var parent := reg.FindLocationByUuid(parentUuid);
        created.SetParentLocation(parent);
      }
      return created;
    }
    r := null;
  }

  /** A first answer other than 200 or 201 ends the create at once with no node and no retry. */
  lemma RejectedCreateIsNotRetried(script: nat -> Reply, start: nat)
    requires script(start).Answered? && script(start).status != 200 && script(start).status != 201
    ensures Attempts(script, start, CreateAttempts, UntilAnswer) == 1
    ensures !CreateSucceeded(script, start)
  {
    OneAttemptWhenFirstStops(script, start, CreateAttempts, UntilAnswer);
  }

  /** Ten throws in a row use up the attempts and give no node. */
  lemma CreateGivesUpAfterTenThrows(script: nat -> Reply, start: nat)
    requires forall k :: start <= k < start + CreateAttempts ==> script(k).Failed?
    ensures Attempts(script, start, CreateAttempts, UntilAnswer) == CreateAttempts
    ensures !CreateSucceeded(script, start)
  {
    AllAttemptsWhenNoneStops(script, start, CreateAttempts, UntilAnswer);
  }

  /**
   * A 201 whose body lacks the uuid is retried; the next answer decides.
   * Here the second attempt answers 201 with both fields, so the create
   * succeeds with that reply.
   */
  lemma MalformedAnswerIsRetried(script: nat -> Reply, start: nat, uuid: string, name: string)
    requires script(start) == Answered(201, None, Some(name))
    requires script(start + 1) == Answered(201, Some(uuid), Some(name))
    ensures Attempts(script, start, CreateAttempts, UntilAnswer) == 2
    ensures CreateSucceeded(script, start)
    ensures LastReply(script, start, CreateAttempts, UntilAnswer).uuid == Some(uuid)
  {
    assert !Stops(script(start), UntilAnswer);
    OneAttemptWhenFirstStops(script, start + 1, CreateAttempts - 1, UntilAnswer);
  }

  /**
   * The one-entry map the resolver sends is filed under a local name that
   * the code index reads back: Code for the general type, HFR Code for the
   * facility type (when the two types differ), the value being the code.
   */
  lemma {:induction false} SingleAttributeFiled(attributeType: string, code: string, codeType: string, hfrCodeType: string)
    requires attributeType == codeType || attributeType == hfrCodeType
    ensures var a := CreatedAttributes(map[attributeType := code], codeType, hfrCodeType);
      ("Code" in a && a["Code"] == code) || ("Code" !in a && "HFR Code" in a && a["HFR Code"] == code)
    ensures attributeType == hfrCodeType && codeType != hfrCodeType ==>
      CreatedAttributes(map[attributeType := code], codeType, hfrCodeType) == map["HFR Code" := code]
    ensures attributeType == codeType ==>
      CreatedAttributes(map[attributeType := code], codeType, hfrCodeType) == map["Code" := code]
  {
    var m := map[attributeType := code];
    assert attributeType in m;
    assert m != map[];
  }
}
