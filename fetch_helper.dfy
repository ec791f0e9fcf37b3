/**
 * The decoder of the OpenMRS location list. A location record becomes a
 * fresh Location carrying its uuid, name, tags and non-voided attributes;
 * its parentLocation record becomes a chain of fresh nodes that carry only
 * an id and a name. The list is fetched a page of 100 at a time; a page
 * that fails is asked for again from the same start index. JSON is modelled
 * as datatypes: a member that is absent (or is not a string) is `None`.
 */
module FetchHelper {
  import opened Wrappers
  import opened Domain

  /** One entry of a record's `tags` array. */
  datatype TagEntry = TagEntry(display: Option<string>)

  /** One entry of a record's `attributes` array; an absent `voided` reads as false. */
  datatype AttributeEntry = AttributeEntry(display: Option<string>, voided: bool)

  /** A `parentLocation` object; its own `parent` is None when absent or JSON null. */
  datatype ParentRecord = ParentRecord(uuid: Option<string>, display: Option<string>, parent: Option<ParentRecord>)

  /** One element of a page's `results`: the members makeLocation reads. */
  datatype LocationRecord = LocationRecord(
    uuid: Option<string>,
    name: Option<string>,
    tags: Option<seq<TagEntry>>,
    attributes: Option<seq<AttributeEntry>>,
    parent: Option<ParentRecord>)

  // ---------------------------------------------------------------------
  // Attribute display text

  /** String.indexOf for one character: the first position holding `c`, or -1. */
  function IndexOf(s: string, c: char): (r: int)
    ensures -1 <= r < |s|
    ensures r >= 0 ==> s[r] == c && c !in s[..r]
    ensures r == -1 <==> c !in s
  {
    if |s| == 0 then -1
    else if s[0] == c then 0
    else
      var k := IndexOf(s[1..], c);
      if k < 0 then -1
      else
        assert s[..k + 1] == [s[0]] + s[1..][..k];
        k + 1
  }

  /**
   * The key and value makeLocation reads from a display text such as
   * "Code: X": the text before the first ':' and the text from two
   * characters after it. substring throws when there is no ':' or when the
   * ':' is the last character.
   */
  function SplitDisplay(ad: string): Result<(string, string)>
  {
    var i := IndexOf(ad, ':');
    if i < 0 || i + 2 > |ad| then Threw(IndexOutOfBounds) else Ok((ad[..i], ad[i + 2..]))
  }

  /** A display written as key, ": ", value, with no ':' in the key, splits back into that key and value. */
  lemma SplitDisplayRoundTrip(key: string, value: string)
    requires ':' !in key
    ensures SplitDisplay(key + ": " + value) == Ok((key, value))
  {
    var ad := key + ": " + value;
    assert ad[|key|] == ':';
    assert ad[..|key|] == key;
    assert ':' in ad;
    assert ad[|key| + 2..] == value;
  }

  /**
   * The converse: a display that splits is its key, a ':', one skipped
   * character and its value, and the key holds no ':'.
   */
  lemma SplitDisplayParts(ad: string, key: string, value: string)
    requires SplitDisplay(ad) == Ok((key, value))
    ensures ':' !in key && ad == key + [':', ad[|key| + 1]] + value
  {
    var i := IndexOf(ad, ':');
    assert ad == ad[..i] + [':', ad[i + 1]] + ad[i + 2..];
  }

  /** A display fails to split exactly when it has no ':' or its first ':' is its last character. */
  lemma SplitDisplayFails(ad: string)
    ensures SplitDisplay(ad).Threw? <==> ':' !in ad || IndexOf(ad, ':') == |ad| - 1
    ensures SplitDisplay(ad).Threw? ==> SplitDisplay(ad).error == IndexOutOfBounds
  {
  }

  // ---------------------------------------------------------------------
  // What makeLocation reads from a record

  /**
   * The tag set after addTag for each entry in turn: null while no tag was
   * added; an entry without `display` throws.
   */
  function TagSet(entries: seq<TagEntry>): Result<Option<set<string>>>
    decreases |entries|
  {
    if entries == [] then Ok(None)
    else
      match TagSet(entries[..|entries| - 1])
      case Threw(e) => Threw(e)
      case Ok(tags) =>
        var d := entries[|entries| - 1].display;
        if d.None? then Threw(MissingJsonKey) else Ok(Some(LazySet(tags) + {d.value}))
  }

  /**
   * The attribute map after addAttribute for each non-voided entry in
   * turn: null while nothing was added; a missing display or a display
   * that does not split throws.
   */
  function AttributeMap(entries: seq<AttributeEntry>): Result<Option<map<string, string>>>
    decreases |entries|
  {
    if entries == [] then Ok(None)
    else
      match AttributeMap(entries[..|entries| - 1])
      case Threw(e) => Threw(e)
      case Ok(attributes) =>
        var entry := entries[|entries| - 1];
        if entry.voided then Ok(attributes)
        else if entry.display.None? then Threw(MissingJsonKey)
        else
          match SplitDisplay(entry.display.value)
          case Threw(e) => Threw(e)
          case Ok(kv) => Ok(Some(Lazy(attributes)[kv.0 := kv.1]))
  }

  /** The value the last non-voided entry with that key gives it, if any. */
  function LastValue(entries: seq<AttributeEntry>, key: string): Option<string>
    decreases |entries|
  {
    if entries == [] then None
    else
      var entry := entries[|entries| - 1];
      if !entry.voided && entry.display.Some? && SplitDisplay(entry.display.value).Ok? &&
         SplitDisplay(entry.display.value).value.0 == key
      then Some(SplitDisplay(entry.display.value).value.1)
      else LastValue(entries[..|entries| - 1], key)
  }

  /** Every tag display is present, so the tags decode. */
  predicate TagsPresent(entries: seq<TagEntry>)
  {
    forall i :: 0 <= i < |entries| ==> entries[i].display.Some?
  }

  /**
   * The tags decode exactly when every entry has a display; the set is
   * then null for an empty list and otherwise holds exactly the displays.
   */
  lemma {:induction false} TagSetContents(entries: seq<TagEntry>)
    ensures TagSet(entries).Ok? <==> TagsPresent(entries)
    ensures TagSet(entries).Threw? ==> TagSet(entries).error == MissingJsonKey
    ensures TagSet(entries).Ok? ==>
      (TagSet(entries).value.None? <==> entries == []) &&
      (forall t :: t in LazySet(TagSet(entries).value) <==> exists i :: 0 <= i < |entries| && entries[i].display == Some(t))
    decreases |entries|
  {
    if entries != [] {
      var front := entries[..|entries| - 1];
      TagSetContents(front);
      assert forall i :: 0 <= i < |front| ==> front[i] == entries[i];
      if TagSet(entries).Ok? {
        forall t | exists i :: 0 <= i < |entries| && entries[i].display == Some(t)
          ensures t in LazySet(TagSet(entries).value)
        {
          var i :| 0 <= i < |entries| && entries[i].display == Some(t);
          if i < |front| {
            assert front[i].display == Some(t);
          }
        }
      }
      if !TagsPresent(front) {
        var i :| 0 <= i < |front| && front[i].display.None?;
        assert entries[i].display.None?;
      }
    }
  }

  /**
   * Voided entries and the order of the others decide the map: it is null
   * exactly when no non-voided entry is listed, and each key holds the
   * value of the last non-voided entry with that key.
   */
  lemma {:induction false} AttributeMapContents(entries: seq<AttributeEntry>)
    requires AttributeMap(entries).Ok?
    ensures AttributeMap(entries).value.None? <==> forall i :: 0 <= i < |entries| ==> entries[i].voided
    ensures forall key :: key in Lazy(AttributeMap(entries).value) <==> LastValue(entries, key).Some?
    ensures forall key :: key in Lazy(AttributeMap(entries).value) ==>
      Lazy(AttributeMap(entries).value)[key] == LastValue(entries, key).value
    decreases |entries|
  {
    if entries != [] {
      var front := entries[..|entries| - 1];
      AttributeMapContents(front);
      assert forall i :: 0 <= i < |front| ==> front[i] == entries[i];
    }
  }

  /** Every parent record up the chain has a uuid and a display. */
  predicate ParentsComplete(p: Option<ParentRecord>)
    decreases p
  {
    match p
    case None => true
    case Some(pr) => pr.uuid.Some? && pr.display.Some? && ParentsComplete(pr.parent)
  }

  /** The parent records up the chain, nearest first. */
  function Ancestry(p: Option<ParentRecord>): (r: seq<ParentRecord>)
    ensures |r| == 0 <==> p.None?
    decreases p
  {
    match p
    case None => []
    case Some(pr) => [pr] + Ancestry(pr.parent)
  }

  /** What makeLocation yields besides the nodes themselves: the tags and attributes it set. */
  datatype Decoded = Decoded(tags: Option<set<string>>, attributes: Option<map<string, string>>)

  /**
   * makeLocation on one record: the parent chain, the uuid, the name and
   * the tags array must be readable; then the tags and, when the record has
   * an attributes array, the attributes.
   */
  function Decode(rec: LocationRecord): Result<Decoded>
  {
    if !ParentsComplete(rec.parent) || rec.uuid.None? || rec.name.None? || rec.tags.None? then Threw(MissingJsonKey)
    else
      match TagSet(rec.tags.value)
      case Threw(e) => Threw(e)
      case Ok(tags) =>
        if rec.attributes.None? then Ok(Decoded(tags, None))
        else
          match AttributeMap(rec.attributes.value)
          case Threw(e) => Threw(e)
          case Ok(attributes) => Ok(Decoded(tags, attributes))
  }

  /** The nodes of `chain` mirror the parent records `ancestry`, each pointing to the next and the last to null. */
  ghost predicate MirrorsAncestry(chain: seq<Location>, ancestry: seq<ParentRecord>)
    reads set l | l in chain
  {
    |chain| == |ancestry| &&
    forall i :: 0 <= i < |chain| ==>
      chain[i].Value() == LocationValue(ancestry[i].uuid, ancestry[i].display, None,
                                        if i + 1 < |chain| then chain[i + 1] else null, None, None)
  }

  /** One node of a mirrored chain. */
  lemma MirrorsAt(chain: seq<Location>, ancestry: seq<ParentRecord>, k: nat)
    requires MirrorsAncestry(chain, ancestry) && k < |chain|
    ensures chain[k].Value() == LocationValue(ancestry[k].uuid, ancestry[k].display, None,
                                        if k + 1 < |chain| then chain[k + 1] else null, None, None)
  {}

  /** A node built from a parent record, in front of the chain built from the records above it. */
  lemma MirrorsCons(node: Location, chain: seq<Location>, pr: ParentRecord, ancestry: seq<ParentRecord>)
    requires MirrorsAncestry(chain, ancestry)
    requires node.Value() == LocationValue(pr.uuid, pr.display, None, if chain == [] then null else chain[0], None, None)
    ensures MirrorsAncestry([node] + chain, [pr] + ancestry)
  {
    var c, a := [node] + chain, [pr] + ancestry;
    forall i | 0 <= i < |c|
      ensures c[i].Value() == LocationValue(a[i].uuid, a[i].display, None, if i + 1 < |c| then c[i + 1] else null, None, None)
    {
      if i + 1 < |c| {
        assert c[i + 1] == chain[i];
      }
      if i > 0 {
        var k := i - 1;
        assert c[i] == chain[k] && a[i] == ancestry[k];
        MirrorsAt(chain, ancestry, k);
      }
    }
    assert MirrorsAncestry(c, a);
  }

  // ---------------------------------------------------------------------
  // getParent and makeLocation

  /**
   * getParent: no parent record gives null; otherwise a new node with the
   * record's uuid and display whose parent is built the same way from the
   * record's own parent. A record up the chain without uuid or display
   * throws. `chain` holds the nodes built, nearest first.
   */
  method GetParent(p: Option<ParentRecord>) returns (r: Result<Location?>, ghost chain: seq<Location>)
    ensures r.Ok? <==> ParentsComplete(p)
    ensures r.Threw? ==> r.error == MissingJsonKey
    ensures r.Ok? ==>
      MirrorsAncestry(chain, Ancestry(p)) && r.value == (if chain == [] then null else chain[0]) &&
      forall i :: 0 <= i < |chain| ==> fresh(chain[i])
    decreases p
  {
    if p.None? {
      return Ok(null), [];
    }
    var pr := p.value;
    if pr.uuid.None? || pr.display.None? {
      return Threw(MissingJsonKey), [];
    }
    var up, upChain := GetParent(pr.parent);
    if up.Threw? {
      return Threw(up.error), [];
    }
    var node := new Location.WithParent(pr.uuid, pr.display, up.value);
    chain := [node] + upChain;
    MirrorsCons(node, upChain, pr, Ancestry(pr.parent));
    r := Ok(node);
  }

  /**
   * makeLocation: a fresh node with the record's uuid and name, no
   * identifiers, the parent chain getParent builds, then addTag for each
   * tag entry and addAttribute for each non-voided attribute entry.
   */
  method MakeLocation(rec: LocationRecord) returns (r: Result<Location>, ghost chain: seq<Location>)
    ensures r.Ok? <==> Decode(rec).Ok?
    ensures r.Threw? ==> r.error == Decode(rec).error
    ensures r.Ok? ==>
      fresh(r.value) && r.value.locationId == rec.uuid && r.value.name == rec.name && r.value.identifiers.None? &&
      r.value.tags == Decode(rec).value.tags && r.value.attributes == Decode(rec).value.attributes &&
      MirrorsAncestry(chain, Ancestry(rec.parent)) && r.value !in chain &&
      r.value.parentLocation == (if chain == [] then null else chain[0]) &&
      forall i :: 0 <= i < |chain| ==> fresh(chain[i])
    ensures r.Ok? ==> Built(r.value, rec)
  {
    var parent;
    parent, chain := GetParent(rec.parent);
    if parent.Threw? {
      return Threw(parent.error), chain;
    }
    if rec.uuid.None? || rec.name.None? || rec.tags.None? {
      return Threw(MissingJsonKey), chain;
    }
    var node := new Location(rec.uuid, rec.name, None, parent.value, None, None);
    var tagged := AddTags(node, rec.tags.value);
    if tagged.Threw? {
      return Threw(tagged.error), chain;
    }
    if rec.attributes.Some? {
      var attributed := AddAttributes(node, rec.attributes.value);
      if attributed.Threw? {
        return Threw(attributed.error), chain;
      }
    }
    r := Ok(node);
  }

  /** The tags loop of makeLocation: addTag with each entry's display, in order, on a node without tags. */
  method AddTags(node: Location, tags: seq<TagEntry>) returns (r: Result<()>)
    requires node.tags.None?
    modifies node
    ensures r.Ok? <==> TagSet(tags).Ok?
    ensures r.Threw? ==> r.error == TagSet(tags).error
    ensures r.Ok? ==> node.Value() == old(node.Value()).(tags := TagSet(tags).value)
  {
    var i := 0;
    while i < |tags|
      invariant 0 <= i <= |tags|
      invariant TagSet(tags[..i]).Ok? && node.Value() == old(node.Value()).(tags := TagSet(tags[..i]).value)
    {
      assert tags[..i + 1][..i] == tags[..i];
      if tags[i].display.None? {
        TagSetPrefix(tags, i + 1);
        return Threw(MissingJsonKey);
      }
      node.AddTag(tags[i].display.value);
      i := i + 1;
    }
    assert tags[..i] == tags;
    r := Ok(());
  }

  /**
   * The attributes loop of makeLocation: addAttribute with the split
   * display of each non-voided entry, in order, on a node without
   * attributes.
   */
  method AddAttributes(node: Location, attributes: seq<AttributeEntry>) returns (r: Result<()>)
    requires node.attributes.None?
    modifies node
    ensures r.Ok? <==> AttributeMap(attributes).Ok?
    ensures r.Threw? ==> r.error == AttributeMap(attributes).error
    ensures r.Ok? ==> node.Value() == old(node.Value()).(attributes := AttributeMap(attributes).value)
  {
    var j := 0;
    while j < |attributes|
      invariant 0 <= j <= |attributes|
      invariant AttributeMap(attributes[..j]).Ok?
      invariant node.Value() == old(node.Value()).(attributes := AttributeMap(attributes[..j]).value)
    {
      assert attributes[..j + 1][..j] == attributes[..j];
      var entry := attributes[j];
      if !entry.voided {
        if entry.display.None? {
          AttributeMapPrefix(attributes, j + 1);
          return Threw(MissingJsonKey);
        }
        var kv := SplitDisplay(entry.display.value);
        if kv.Threw? {
          AttributeMapPrefix(attributes, j + 1);
          return Threw(kv.error);
        }
        node.AddAttribute(kv.value.0, kv.value.1);
      }
      j := j + 1;
    }
    assert attributes[..j] == attributes;
    r := Ok(());
  }

  /** A tag list whose first `n` entries already throw throws as a whole, with the same exception. */
  lemma {:induction false} TagSetPrefix(entries: seq<TagEntry>, n: nat)
    requires n <= |entries| && TagSet(entries[..n]).Threw?
    ensures TagSet(entries) == TagSet(entries[..n])
    decreases |entries| - n
  {
    if n < |entries| {
      assert entries[..n + 1][..n] == entries[..n];
      TagSetPrefix(entries, n + 1);
    } else {
      assert entries[..n] == entries;
    }
  }

  /** An attribute list whose first `n` entries already throw throws as a whole, with the same exception. */
  lemma {:induction false} AttributeMapPrefix(entries: seq<AttributeEntry>, n: nat)
    requires n <= |entries| && AttributeMap(entries[..n]).Threw?
    ensures AttributeMap(entries) == AttributeMap(entries[..n])
    decreases |entries| - n
  {
    if n < |entries| {
      assert entries[..n + 1][..n] == entries[..n];
      AttributeMapPrefix(entries, n + 1);
    } else {
      assert entries[..n] == entries;
    }
  }

  /** A node makeLocation built from a record: its own fields, and a parent exactly when the record has one. */
  ghost predicate Built(l: Location, rec: LocationRecord)
    reads l
  {
    Decode(rec).Ok? && l.locationId == rec.uuid && l.name == rec.name && l.identifiers.None? &&
    l.tags == Decode(rec).value.tags && l.attributes == Decode(rec).value.attributes &&
    (l.parentLocation == null <==> rec.parent.None?)
  }

  /** Each node of `ls` was built from the record at the same position of `rs`. */
  ghost predicate AllBuilt(ls: seq<Location>, rs: seq<LocationRecord>)
    reads set l | l in ls
  {
    |ls| == |rs| && forall i :: 0 <= i < |ls| ==> Built(ls[i], rs[i])
  }

  // ---------------------------------------------------------------------
  // getAllLocations: the page walk

  /** One entry of a page's `links` array; its `rel` is None when absent. */
  datatype Link = Link(rel: Option<string>)

  /**
   * What one request for a page gives: a transport failure or a body that
   * is not JSON (Unreadable), no body at all (getURL's null for a blank
   * body), or a JSON object whose `links` and `results` arrays may each be
   * missing.
   */
  datatype Reply = Unreadable | Blank | Page(links: Option<seq<Link>>, results: Option<seq<LocationRecord>>)

  /** What getAllLocations does after a page: return, ask for the next page, or ask for this page again. */
  datatype Step = Stop | Next | Retry

  /** The records a page appends to the list, and what follows. */
  datatype Outcome = Outcome(appended: seq<LocationRecord>, step: Step)

  /**
   * The next-page rule: two links mean "previous" and "next"; otherwise the
   * first link must have rel "next". An empty array or a first link
   * without rel throws.
   */
  function NextRule(links: seq<Link>): Result<bool>
  {
    if |links| == 2 then Ok(true)
    else if |links| == 0 || links[0].rel.None? then Threw(MissingJsonKey)
    else Ok(links[0].rel.value == "next")
  }

  /** The next page is asked for exactly when there are two links or the first link is "next". */
  lemma NextRuleCases(links: seq<Link>)
    ensures NextRule(links) == Ok(true) <==> |links| == 2 || (|links| > 0 && links[0].rel == Some("next"))
    ensures NextRule(links) == Ok(false) <==> |links| != 2 && |links| > 0 && links[0].rel.Some? && links[0].rel != Some("next")
    ensures NextRule(links).Threw? <==> |links| != 2 && (|links| == 0 || links[0].rel.None?)
  {
  }

  /** How many records at the front of `rs` makeLocation decodes before the first that throws. */
  function DecodedPrefix(rs: seq<LocationRecord>): (k: nat)
    ensures k <= |rs|
    ensures forall i :: 0 <= i < k ==> Decode(rs[i]).Ok?
    ensures k < |rs| ==> Decode(rs[k]).Threw?
  {
    if rs == [] || Decode(rs[0]).Threw? then 0 else 1 + DecodedPrefix(rs[1..])
  }

  /**
   * One call of getAllLocations on the reply to its request. The records
   * decoded before an exception stay in the list, and the page is asked
   * for again; a blank body or a body without `results` ends the walk.
   */
  function Handle(reply: Reply): Outcome
  {
    match reply
    case Unreadable => Outcome([], Retry)
    case Blank => Outcome([], Stop)
    case Page(links, results) =>
      if links.None? then Outcome([], Retry)
      else if results.None? then Outcome([], Stop)
      else
        var k := DecodedPrefix(results.value);
        if k < |results.value| then Outcome(results.value[..k], Retry)
        else
          match NextRule(links.value)
          case Threw(_) => Outcome(results.value, Retry)
          case Ok(more) => Outcome(results.value, if more then Next else Stop)
  }

  /** The start index of the request after a page: 100 further on for the next page, the same for a retry. */
  function NextStart(start: nat, step: Step): nat
  {
    if step == Next then start + 100 else start
  }

  /** The records appended, the start index of every request, and whether the walk returned. */
  datatype Walked = Walked(records: seq<LocationRecord>, starts: seq<nat>, stopped: bool)

  /**
   * The walk from request number `n` at `start`, with room for `fuel` more
   * requests; request number i is answered by replies(i).
   */
  function Walk(replies: nat -> Reply, n: nat, start: nat, fuel: nat): (w: Walked)
    ensures |w.starts| <= fuel
    ensures w.stopped ==> |w.starts| > 0
    decreases fuel
  {
    if fuel == 0 then Walked([], [], false)
    else
      var o := Handle(replies(n));
      if o.step == Stop then Walked(o.appended, [start], true)
      else
        var rest := Walk(replies, n + 1, NextStart(start, o.step), fuel - 1);
        Walked(o.appended + rest.records, [start] + rest.starts, rest.stopped)
  }

  /**
   * The requested start indexes go up by exactly 100 after a page that
   * asks for more and stay put after a retry, so each is a multiple of 100
   * at or above the first.
   */
  lemma {:induction false} WalkStarts(replies: nat -> Reply, n: nat, start: nat, fuel: nat)
    requires start % 100 == 0
    ensures var s := Walk(replies, n, start, fuel).starts;
      (|s| > 0 ==> s[0] == start) &&
      (forall i :: 0 <= i < |s| ==> s[i] % 100 == 0 && s[i] >= start) &&
      (forall i :: 0 < i < |s| ==> s[i] == s[i - 1] || s[i] == s[i - 1] + 100)
    decreases fuel
  {
    if fuel > 0 {
      var o := Handle(replies(n));
      if o.step != Stop {
        var next := NextStart(start, o.step);
        WalkStarts(replies, n + 1, next, fuel - 1);
        var s := Walk(replies, n, start, fuel).starts;
        var rest := Walk(replies, n + 1, next, fuel - 1).starts;
        assert s == [start] + rest;
        forall i | 0 < i < |s|
          ensures s[i] == s[i - 1] || s[i] == s[i - 1] + 100
        {
          assert s[i] == rest[i - 1];
          if i == 1 {
            assert s[i] == next;
          } else {
            assert s[i - 1] == rest[i - 2];
          }
        }
      }
    }
  }

  /**
   * A page that throws at its k-th record (k > 0) and is answered the same
   * way again puts its first k records into the list twice.
   */
  lemma {:induction false} RetryRepeatsRecords(replies: nat -> Reply, n: nat, start: nat, fuel: nat)
    requires fuel >= 2 && replies(n) == replies(n + 1) && replies(n).Page? && replies(n).links.Some?
    requires replies(n).results.Some? && DecodedPrefix(replies(n).results.value) < |replies(n).results.value|
    ensures var rs := replies(n).results.value; var k := DecodedPrefix(rs);
      var w := Walk(replies, n, start, fuel);
      |w.records| >= 2 * k && w.records[..2 * k] == rs[..k] + rs[..k] && |w.starts| >= 2 && w.starts[..2] == [start, start]
  {
    var rs := replies(n).results.value;
    var k := DecodedPrefix(rs);
    var later := Walk(replies, n + 2, start, fuel - 2);
    assert Walk(replies, n + 1, start, fuel - 1).records == rs[..k] + later.records;
    assert Walk(replies, n, start, fuel).records == rs[..k] + (rs[..k] + later.records);
    assert (rs[..k] + (rs[..k] + later.records))[..2 * k] == rs[..k] + rs[..k];
  }

  /**
   * One page: decode its records in order with makeLocation, stopping at
   * the first that throws, then apply the next-page rule.
   */
  method HandlePage(reply: Reply) returns (appended: seq<Location>, ghost records: seq<LocationRecord>, step: Step)
    ensures Handle(reply) == Outcome(records, step)
    ensures AllBuilt(appended, records) && forall i :: 0 <= i < |appended| ==> fresh(appended[i])
  {
    appended, records := [], [];
    if reply.Unreadable? || (reply.Page? && reply.links.None?) {
      return appended, records, Retry;
    }
    if reply.Blank? || reply.results.None? {
      return appended, records, Stop;
    }
    var results := reply.results.value;
    var i := 0;
    while i < |results|
      modifies {}
      invariant 0 <= i <= |results|
      invariant records == results[..i] && forall j :: 0 <= j < i ==> Decode(results[j]).Ok?
      invariant AllBuilt(appended, records) && forall j :: 0 <= j < |appended| ==> fresh(appended[j])
    {
      var l, chain := MakeLocation(results[i]);
      if l.Threw? {
        return appended, records, Retry;
      }
      assert results[..i + 1] == records + [results[i]];
      appended, records := appended + [l.value], records + [results[i]];
      i := i + 1;
    }
    assert records == results;
    var more := NextRule(reply.links.value);
    step := if more.Threw? then Retry else if more.value then Next else Stop;
  }

  /**
   * getAllLocations from start index 0, with `fuel` requests at most (the
   * source retries without bound). `starts` are the start indexes
   * requested in order; every node of `locations` is fresh and built from
   * the record at the same position of the walk's records.
   */
  method GetAllLocations(replies: nat -> Reply, fuel: nat)
    returns (locations: seq<Location>, ghost records: seq<LocationRecord>, ghost starts: seq<nat>, stopped: bool)
    ensures Walk(replies, 0, 0, fuel) == Walked(records, starts, stopped)
    ensures AllBuilt(locations, records) && forall i :: 0 <= i < |locations| ==> fresh(locations[i])
  {
    locations, records, starts, stopped := [], [], [], false;
    var n, start, left := 0, 0, fuel;
    ghost var whole := Walk(replies, n, start, left);
    assert whole == Resumed(records, starts, whole);
    while left > 0 && !stopped
      modifies {}
      invariant !stopped ==> whole == Resumed(records, starts, Walk(replies, n, start, left))
      invariant stopped ==> whole == Walked(records, starts, true)
      invariant AllBuilt(locations, records) && forall i :: 0 <= i < |locations| ==> fresh(locations[i])
    {
      var appended;
      appended, records, starts, stopped, start := WalkOnce(replies, n, start, left, locations, records, starts);
      locations := locations + appended;
      n, left := n + 1, left - 1;
    }
    if !stopped {
      assert records + [] == records && starts + [] == starts;
    }
  }

  /** One request of the walk: the page's new nodes, and the walk so far with this request moved into it. */
  method WalkOnce(replies: nat -> Reply, n: nat, start: nat, left: nat, locations: seq<Location>,
                  ghost records: seq<LocationRecord>, ghost starts: seq<nat>)
    returns (appended: seq<Location>, ghost records': seq<LocationRecord>, ghost starts': seq<nat>, stopped: bool, start': nat)
    requires left > 0 && AllBuilt(locations, records)
    ensures stopped ==> Resumed(records, starts, Walk(replies, n, start, left)) == Walked(records', starts', true)
    ensures !stopped ==>
      Resumed(records, starts, Walk(replies, n, start, left)) == Resumed(records', starts', Walk(replies, n + 1, start', left - 1))
    ensures AllBuilt(locations + appended, records') && forall i :: 0 <= i < |appended| ==> fresh(appended[i])
  {
    ghost var got;
    var step;
    appended, got, step := HandlePage(replies(n));
    AllBuiltAppend(locations, records, appended, got);
    WalkStep(records, starts, replies, n, start, left, got, step);
    records', starts', stopped, start' := records + got, starts + [start], step == Stop, NextStart(start, step);
  }

  /** The walk so far followed by the rest of the walk. */
  function Resumed(records: seq<LocationRecord>, starts: seq<nat>, rest: Walked): Walked
  {
    Walked(records + rest.records, starts + rest.starts, rest.stopped)
  }

  /** Moving one request from the rest of the walk into the walk so far. */
  lemma WalkStep(records: seq<LocationRecord>, starts: seq<nat>, replies: nat -> Reply, n: nat, start: nat, fuel: nat,
                 got: seq<LocationRecord>, step: Step)
    requires fuel > 0 && Handle(replies(n)) == Outcome(got, step)
    ensures step == Stop ==> Resumed(records, starts, Walk(replies, n, start, fuel)) == Walked(records + got, starts + [start], true)
    ensures step != Stop ==>
      Resumed(records, starts, Walk(replies, n, start, fuel)) ==
      Resumed(records + got, starts + [start], Walk(replies, n + 1, NextStart(start, step), fuel - 1))
  {
    var rest := Walk(replies, n + 1, NextStart(start, step), fuel - 1);
    assert records + (got + rest.records) == (records + got) + rest.records;
    assert starts + ([start] + rest.starts) == (starts + [start]) + rest.starts;
  }

  /** Appending a built batch to a built list keeps it built. */
  lemma AllBuiltAppend(ls: seq<Location>, rs: seq<LocationRecord>, more: seq<Location>, moreRs: seq<LocationRecord>)
    requires AllBuilt(ls, rs) && AllBuilt(more, moreRs)
    ensures AllBuilt(ls + more, rs + moreRs)
  {
    forall i | 0 <= i < |ls + more|
      ensures Built((ls + more)[i], (rs + moreRs)[i])
    {
      if i >= |ls| {
        assert (ls + more)[i] == more[i - |ls|];
      }
    }
  }
}
