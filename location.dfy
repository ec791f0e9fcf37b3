/**
 * The Location entity: a node of the location hierarchy whose collections
 * (identifiers, tags, attributes) start out null and are created on first use.
 * A null Java reference is `None` (for strings and collections) or `null`
 * (for the parent node).
 */
module Domain {
  import opened Wrappers

  /** Every field of a node at one moment, used to say which fields a method changes. */
  datatype LocationValue = LocationValue(
    locationId: Option<string>,
    name: Option<string>,
    identifiers: Option<map<string, string>>,
    parentLocation: Location?,
    tags: Option<set<string>>,
    attributes: Option<map<string, string>>)

  class Location {
    var locationId: Option<string>
    var name: Option<string>
    var identifiers: Option<map<string, string>>
    var parentLocation: Location?
    var tags: Option<set<string>>
    var attributes: Option<map<string, string>>

    ghost function Value(): LocationValue
      reads this
    {
      LocationValue(locationId, name, identifiers, parentLocation, tags, attributes)
    }

    /** The no-argument constructor: every field null. */
    constructor Empty()
      ensures Value() == LocationValue(None, None, None, null, None, None)
    {
      locationId := None;
      name := None;
      identifiers := None;
      parentLocation := null;
      tags := None;
      attributes := None;
    }

    /** The four-argument constructor (the address is not modelled). */
    constructor WithParent(locationId: Option<string>, name: Option<string>, parentLocation: Location?)
      ensures Value() == LocationValue(locationId, name, None, parentLocation, None, None)
    {
      this.locationId := locationId;
      this.name := name;
      this.identifiers := None;
      this.parentLocation := parentLocation;
      this.tags := None;
      this.attributes := None;
    }

    /** The full constructor (the address is not modelled). */
    constructor (locationId: Option<string>, name: Option<string>, identifiers: Option<map<string, string>>,
                 parentLocation: Location?, tags: Option<set<string>>, attributes: Option<map<string, string>>)
      ensures Value() == LocationValue(locationId, name, identifiers, parentLocation, tags, attributes)
    {
      this.locationId := locationId;
      this.name := name;
      this.identifiers := identifiers;
      this.parentLocation := parentLocation;
      this.tags := tags;
      this.attributes := attributes;
    }

    method SetLocationId(locationId: Option<string>)
      modifies this
      ensures Value() == old(Value()).(locationId := locationId)
    {
      this.locationId := locationId;
    }

    method SetName(name: Option<string>)
      modifies this
      ensures Value() == old(Value()).(name := name)
    {
      this.name := name;
    }

    /** Replaces the whole identifier map. */
    method SetIdentifiers(identifiers: Option<map<string, string>>)
      modifies this
      ensures Value() == old(Value()).(identifiers := identifiers)
    {
      this.identifiers := identifiers;
    }

    method SetParentLocation(parentLocation: Location?)
      modifies this
      ensures Value() == old(Value()).(parentLocation := parentLocation)
    {
      this.parentLocation := parentLocation;
    }

    /** Replaces the whole tag set. */
    method SetTags(tags: Option<set<string>>)
      modifies this
      ensures Value() == old(Value()).(tags := tags)
    {
      this.tags := tags;
    }

    /** Replaces the whole attribute map. */
    method SetAttributes(attributes: Option<map<string, string>>)
      modifies this
      ensures Value() == old(Value()).(attributes := attributes)
    {
      this.attributes := attributes;
    }

    /** hasTag: the tag set must exist (a null set throws in the source). */
    predicate HasTag(tag: string)
      requires tags.Some?
      reads this
    {
      tag in tags.value
    }

    /** getIdentifier: the value stored for the type, or null when there is none. */
    function GetIdentifier(identifierType: string): (r: Option<string>)
      requires identifiers.Some?
      reads this
      ensures r.Some? <==> identifierType in identifiers.value
      ensures r.Some? ==> r.value == identifiers.value[identifierType]
    {
      if identifierType in identifiers.value then Some(identifiers.value[identifierType]) else None
    }

    /** getAttribute: the value stored under the name, or null when there is none. */
    function GetAttribute(name: string): (r: Option<string>)
      requires attributes.Some?
      reads this
      ensures r.Some? <==> name in attributes.value
      ensures r.Some? ==> r.value == attributes.value[name]
    {
      if name in attributes.value then Some(attributes.value[name]) else None
    }

    /** addIdentifier: creates the map when it is null, then stores the entry. */
    method AddIdentifier(identifierType: string, identifier: string)
      modifies this
      ensures identifiers == Some(Lazy(old(identifiers))[identifierType := identifier])
      ensures Value() == old(Value()).(identifiers := identifiers)
      ensures GetIdentifier(identifierType) == Some(identifier)
    {
      if identifiers.None? {
        identifiers := Some(map[]);
      }
      identifiers := Some(identifiers.value[identifierType := identifier]);
    }

    /** removeIdentifier: drops that one key; the map must exist. */
    method RemoveIdentifier(identifierType: string)
      requires identifiers.Some?
      modifies this
      ensures identifiers == Some(old(identifiers.value) - {identifierType})
      ensures Value() == old(Value()).(identifiers := identifiers)
      ensures GetIdentifier(identifierType).None?
    {
      identifiers := Some(identifiers.value - {identifierType});
    }

    /** addTag: creates the set when it is null, then adds the tag. */
    method AddTag(tag: string)
      modifies this
      ensures tags == Some(LazySet(old(tags)) + {tag})
      ensures Value() == old(Value()).(tags := tags)
      ensures HasTag(tag)
    {
      if tags.None? {
        tags := Some({});
      }
      tags := Some(tags.value + {tag});
    }

    /** removeTag: reports whether the tag was present; the set must exist. */
    method RemoveTag(tag: string) returns (removed: bool)
      requires tags.Some?
      modifies this
      ensures removed == (tag in old(tags.value))
      ensures tags == Some(old(tags.value) - {tag})
      ensures Value() == old(Value()).(tags := tags)
      ensures !HasTag(tag)
    {
      removed := tag in tags.value;
      tags := Some(tags.value - {tag});
    }

    /** addAttribute: creates the map when it is null, then stores the entry. */
    method AddAttribute(name: string, value: string)
      modifies this
      ensures attributes == Some(Lazy(old(attributes))[name := value])
      ensures Value() == old(Value()).(attributes := attributes)
      ensures GetAttribute(name) == Some(value)
    {
      if attributes.None? {
        attributes := Some(map[]);
      }
      attributes := Some(attributes.value[name := value]);
    }

    /** removeAttribute: drops that one key; the map must exist. */
    method RemoveAttribute(name: string)
      requires attributes.Some?
      modifies this
      ensures attributes == Some(old(attributes.value) - {name})
      ensures Value() == old(Value()).(attributes := attributes)
      ensures GetAttribute(name).None?
      ensures forall k :: k != name ==> GetAttribute(k) == old(GetAttribute(k))
    {
      attributes := Some(attributes.value - {name});
    }

    method WithLocationId(locationId: Option<string>) returns (r: Location)
      modifies this
      ensures r == this
      ensures Value() == old(Value()).(locationId := locationId)
    {
      this.locationId := locationId;
      r := this;
    }

    method WithName(name: Option<string>) returns (r: Location)
      modifies this
      ensures r == this
      ensures Value() == old(Value()).(name := name)
    {
      this.name := name;
      r := this;
    }

    method WithIdentifier(identifierType: string, identifier: string) returns (r: Location)
      modifies this
      ensures r == this
      ensures identifiers == Some(Lazy(old(identifiers))[identifierType := identifier])
      ensures Value() == old(Value()).(identifiers := identifiers)
    {
      AddIdentifier(identifierType, identifier);
      r := this;
    }

    method WithParentLocation(parentLocation: Location?) returns (r: Location)
      modifies this
      ensures r == this
      ensures Value() == old(Value()).(parentLocation := parentLocation)
    {
      this.parentLocation := parentLocation;
      r := this;
    }

    method WithTag(tag: string) returns (r: Location)
      modifies this
      ensures r == this
      ensures tags == Some(LazySet(old(tags)) + {tag})
      ensures Value() == old(Value()).(tags := tags)
      ensures HasTag(tag)
    {
      AddTag(tag);
      r := this;
    }

    method WithAttribute(name: string, value: string) returns (r: Location)
      modifies this
      ensures r == this
      ensures attributes == Some(Lazy(old(attributes))[name := value])
      ensures Value() == old(Value()).(attributes := attributes)
    {
      AddAttribute(name, value);
      r := this;
    }
  }

  /** A map field as the add methods see it: a null map is a new, empty one. */
  function Lazy(m: Option<map<string, string>>): map<string, string>
  {
    if m.None? then map[] else m.value
  }

  /** A tag set as the add methods see it: a null set is a new, empty one. */
  function LazySet(s: Option<set<string>>): set<string>
  {
    if s.None? then {} else s.value
  }
}
